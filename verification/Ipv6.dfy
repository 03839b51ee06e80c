/** IPv6 literals: expansion of every printed form to eight groups, and the blocks that are not global. */
module Ipv6 {

  import opened Base
  import opened Bits
  import opened Text
  import opened Numerals
  import opened Ipv4

  // --------------------------------------------------------------------------------- expansion

  /** One to four lower-case hexadecimal digits. */
  predicate IsHexGroup(g: string) {
    1 <= |g| <= 4 && AllDigits(g, Hex) && forall i | 0 <= i < |g| :: !('A' <= g[i] <= 'F')
  }

  predicate AllHexGroups(parts: seq<string>) {
    forall i | 0 <= i < |parts| :: IsHexGroup(parts[i])
  }

  function GroupValues(parts: seq<string>): (groups: seq<nat>)
    ensures |groups| == |parts|
    ensures forall i | 0 <= i < |parts| :: groups[i] == Radix(parts[i], Hex)
  {
    seq(|parts|, i requires 0 <= i < |parts| => Radix(parts[i], Hex))
  }

  /** The groups of one side of "::"; an empty side has none. */
  function ParseChunk(chunk: string): Option<seq<nat>> {
    if chunk == "" then Some([])
    else if AllHexGroups(Split(chunk, ':')) then Some(GroupValues(Split(chunk, ':')))
    else None
  }

  /** split("::"), which cuts at the leftmost pairs of colons. */
  function Halves(s: string): (halves: seq<string>)
    ensures |halves| >= 1
  {
    if |s| < 2 then [s]
    else if s[0] == ':' && s[1] == ':' then [""] + Halves(s[2..])
    else
      var rest := Halves(s[1..]);
      [[s[0]] + rest[0]] + rest[1..]
  }

  function ZeroGroups(k: nat): seq<nat> {
    seq(k, _ => 0)
  }

  /** Expansion of a text without a dotted tail. */
  function ExpandPlain(s: string): (r: Option<seq<nat>>)
    ensures r.Some? ==> |r.value| == 8
  {
    var halves := Halves(s);
    if |halves| == 1 then
      match ParseChunk(halves[0])
      case None => None
      case Some(all) => if |all| == 8 then Some(all) else None
    else if |halves| == 2 then
      match (ParseChunk(halves[0]), ParseChunk(halves[1]))
      case (Some(head), Some(rest)) =>
        if |head| + |rest| <= 8 then Some(head + ZeroGroups(8 - |head| - |rest|) + rest) else None
      case _ => None
    else None
  }

  function Unbracket(s: string): string {
    if |s| >= 2 && s[0] == '[' && s[|s| - 1] == ']' then s[1..|s| - 1] else s
  }

  /** The length of the text up to and with its last colon. */
  function AfterLastColon(s: string): (k: nat)
    ensures k <= |s|
    ensures ':' !in s[k..]
    ensures k > 0 ==> s[k - 1] == ':'
    ensures k == 0 <==> ':' !in s
  {
    if s == "" then 0
    else if s[|s| - 1] == ':' then |s|
    else
      var k := AfterLastColon(s[..|s| - 1]);
      assert s == s[..|s| - 1] + [s[|s| - 1]];
      k
  }

  function HighGroup(o: Octets): nat {
    o.a * 0x100 + o.b
  }

  function LowGroup(o: Octets): nat {
    o.c * 0x100 + o.d
  }

  /** A dotted tail rewritten as two groups; None when the tail is no IPv4 address. */
  function Undotted(s: string): Option<string> {
    var k := AfterLastColon(s);
    if '.' !in s[k..] then Some(s)
    else
      match ParseIpv4(s[k..])
      case None => None
      case Some(o) => Some(s[..k] + TwoGroups(o))
  }

  /** Expansion of a text that is trimmed, in lower case and without brackets. */
  function ExpandBare(s: string): (r: Option<seq<nat>>)
    ensures r.Some? ==> |r.value| == 8
  {
    if ':' !in s then None
    else
      match Undotted(s)
      case None => None
      case Some(plain) => ExpandPlain(plain)
  }

  function Expand(input: string): (r: Option<seq<nat>>)
    ensures r.Some? ==> |r.value| == 8
  {
    ExpandBare(Unbracket(Lower(Trim(input))))
  }

  /** Reads the groups of one side of "::" one by one. */
  method ParseGroups(chunk: string) returns (r: Option<seq<nat>>)
    ensures r == ParseChunk(chunk)
  {
    if chunk == "" {
      return Some([]);
    }
    var parts := Split(chunk, ':');
    var groups: seq<nat> := [];
    for i := 0 to |parts|
      invariant AllHexGroups(parts[..i]) && groups == GroupValues(parts[..i])
    {
      if !IsHexGroup(parts[i]) {
        return None;
      }
      groups := groups + [Radix(parts[i], Hex)];
    }
    assert parts[..|parts|] == parts;
    return Some(groups);
  }

  lemma ParsedOctetsAreBytes(s: string)
    ensures ParseIpv4(s).Some? ==>
              var o := ParseIpv4(s).value;
              o.a < 256 && o.b < 256 && o.c < 256 && o.d < 256
  {
    if ParseIpv4(s).Some? {
      var nums := Values(Split(Trim(s), '.'));
      AtonBelow(nums, 4);
      Powers();
    }
  }

  /** Two octets joined with a shift and an or. */
  method JoinOctets(high: nat, low: nat) returns (group: nat)
    requires low < 0x100
    ensures group == high * 0x100 + low
  {
    ShiftByEight(high);
    OrDisjoint(high, low, 8);
    group := Or(Shl(high, 8), low);
  }

  /** Expands an IPv6 text to its eight groups. */
  method ExpandIpv6(input: string) returns (r: Option<seq<nat>>)
    ensures r == Expand(input)
  {
    var s := Unbracket(Lower(Trim(input)));
    r := ExpandText(s);
  }

  /** The steps after the brackets are gone. */
  method ExpandText(s: string) returns (r: Option<seq<nat>>)
    ensures r == ExpandBare(s)
  {
    if ':' !in s {
      return None;
    }
    var plain := ReplaceDottedTail(s);
    if plain == None {
      return None;
    }
    r := ExpandHalves(plain.value);
  }

  method ReplaceDottedTail(s: string) returns (r: Option<string>)
    ensures r == Undotted(s)
  {
    var k := AfterLastColon(s);
    var tail := s[k..];
    if '.' !in tail {
      return Some(s);
    }
    var v4 := ParseToIpv4(tail);
    if v4 == None {
      return None;
    }
    ParsedOctetsAreBytes(tail);
    var pair := PrintGroups(v4.value);
    r := Some(s[..k] + pair);
  }

  /** Four octets printed as two groups. */
  function TwoGroups(o: Octets): string {
    Digits(HighGroup(o), Hex) + ":" + Digits(LowGroup(o), Hex)
  }

  method PrintGroups(o: Octets) returns (pair: string)
    requires o.b < 256 && o.d < 256
    ensures pair == TwoGroups(o)
  {
    var high := JoinOctets(o.a, o.b);
    var low := JoinOctets(o.c, o.d);
    pair := Digits(high, Hex) + ":" + Digits(low, Hex);
  }

  /** The part of the expansion after the dotted tail is gone. */
  method ExpandHalves(s: string) returns (r: Option<seq<nat>>)
    ensures r == ExpandPlain(s)
  {
    var halves := Halves(s);
    if |halves| > 2 {
      return None;
    }
    var groups: seq<nat>;
    if |halves| == 2 {
      var head := ParseGroups(halves[0]);
      var rest := ParseGroups(halves[1]);
      if head == None || rest == None {
        return None;
      }
      var fill := 8 - |head.value| - |rest.value|;
      if fill < 0 {
        return None;
      }
      groups := head.value + ZeroGroups(fill) + rest.value;
    } else {
      var all := ParseGroups(halves[0]);
      if all == None {
        return None;
      }
      groups := all.value;
    }
    return if |groups| == 8 then Some(groups) else None;
  }

  // ----------------------------------------------------------------------------------- grammar

  /** A group is printed with one to four lower-case hexadecimal digits, padded or not. */
  ghost predicate IsGroupSpelling(p: string, v: nat) {
    |p| <= 4 && exists k: nat :: p == Zeros(k) + Digits(v, Hex)
  }

  ghost predicate SpellsGroups(parts: seq<string>, groups: seq<nat>) {
    |parts| == |groups| && forall i | 0 <= i < |parts| :: IsGroupSpelling(parts[i], groups[i])
  }

  /** A dotted tail spells the 32 bits of the last two groups. */
  ghost predicate IsDottedTail(tail: string, high: nat, low: nat) {
    '.' in tail && ':' !in tail && high < 0x1_0000 && low < 0x1_0000
    && IsIpv4Spelling(Trim(tail), high * 0x1_0000 + low)
  }

  /** Parts of which the last one may be a dotted tail for two groups. */
  ghost predicate SpellsWithTail(parts: seq<string>, groups: seq<nat>) {
    || SpellsGroups(parts, groups)
    || (&& |parts| >= 1 && |groups| == |parts| + 1
        && SpellsGroups(parts[..|parts| - 1], groups[..|groups| - 2])
        && IsDottedTail(parts[|parts| - 1], groups[|groups| - 2], groups[|groups| - 1]))
  }

  /** All eight groups are printed. */
  ghost predicate IsFullForm(s: string, g: seq<nat>, parts: seq<string>) {
    |g| == 8 && SpellsWithTail(parts, g) && s == Join(parts, ':')
  }

  /** "::" stands for a run of zero groups, of any length, between the printed ones. */
  ghost predicate IsShortForm(s: string, g: seq<nat>, head: seq<string>, rest: seq<string>, restGroups: nat) {
    && |g| == 8 && |head| + restGroups <= 8
    && SpellsGroups(head, g[..|head|]) && SpellsWithTail(rest, g[8 - restGroups..])
    && (forall i | |head| <= i < 8 - restGroups :: g[i] == 0)
    && s == Join(head, ':') + "::" + Join(rest, ':')
  }

  /** The printed forms of eight groups (section 2.2 of RFC 4291), in lower case. */
  ghost predicate IsPrinting(s: string, g: seq<nat>) {
    || (exists parts :: IsFullForm(s, g, parts))
    || (exists head, rest, n: nat :: IsShortForm(s, g, head, rest, n))
  }

  lemma GroupIsSpelling(p: string)
    requires IsHexGroup(p)
    ensures IsGroupSpelling(p, Radix(p, Hex))
  {
    assert IsLower(p);
    var k := PaddedDigits(p, Hex);
  }

  lemma SpellingIsGroup(p: string, v: nat)
    requires IsGroupSpelling(p, v)
    ensures IsHexGroup(p) && Radix(p, Hex) == v
  {
    var k: nat :| p == Zeros(k) + Digits(v, Hex);
    PaddedIsRead(k, v, Hex, p);
    DigitsAreDigits(v, Hex);
    forall i | 0 <= i < |p|
      ensures !('A' <= p[i] <= 'F')
    {
      assert i >= k ==> p[i] == Digits(v, Hex)[i - k];
    }
  }

  lemma GroupIffSpelling(p: string, v: nat)
    ensures (IsHexGroup(p) && Radix(p, Hex) == v) <==> IsGroupSpelling(p, v)
  {
    if IsHexGroup(p) {
      GroupIsSpelling(p);
    }
    if IsGroupSpelling(p, v) {
      SpellingIsGroup(p, v);
    }
  }

  lemma GroupsIffSpelling(parts: seq<string>, groups: seq<nat>)
    ensures (AllHexGroups(parts) && GroupValues(parts) == groups) <==> SpellsGroups(parts, groups)
  {
    forall p, v
      ensures (IsHexGroup(p) && Radix(p, Hex) == v) <==> IsGroupSpelling(p, v)
    {
      GroupIffSpelling(p, v);
    }
  }

  /** A short enough number is printed with at most four hexadecimal digits. */
  lemma PrintedGroup(v: nat)
    requires v < 0x1_0000
    ensures IsGroupSpelling(Digits(v, Hex), v)
  {
    var b := Hex;
    var s := Digits(v, b);
    var v1 := v / 16;
    var v2 := v1 / 16;
    var v3 := v2 / 16;
    assert |Digits(v3, b)| == 1;
    assert |Digits(v2, b)| <= 2;
    assert |Digits(v1, b)| <= 3;
    assert s == Zeros(0) + s;
  }

  lemma {:induction false} RadixBelow(p: string)
    requires AllDigits(p, Hex)
    ensures |p| <= 4 ==> Radix(p, Hex) < 0x1_0000
    ensures |p| <= 3 ==> Radix(p, Hex) < 0x1000
    ensures |p| <= 2 ==> Radix(p, Hex) < 0x100
    ensures |p| <= 1 ==> Radix(p, Hex) < 0x10
  {
    if p != "" {
      RadixBelow(p[..|p| - 1]);
    }
  }

  // ------------------------------------------------------------------- texts joined with colons

  ghost predicate NoDouble(s: string) {
    forall i | 0 <= i < |s| - 1 :: !(s[i] == ':' && s[i + 1] == ':')
  }

  lemma {:induction false} HalvesOfPlain(s: string)
    requires NoDouble(s)
    ensures Halves(s) == [s]
  {
    if |s| >= 2 {
      HalvesOfPlain(s[1..]);
      assert s == [s[0]] + s[1..];
    }
  }

  lemma {:induction false} HalvesAtDouble(a: string, b: string)
    requires NoDouble(a) && (a != "" ==> a[|a| - 1] != ':')
    ensures Halves(a + "::" + b) == [a] + Halves(b)
  {
    var s := a + "::" + b;
    if a == "" {
      assert s[2..] == b;
    } else {
      HalvesAtDouble(a[1..], b);
      assert s[1..] == a[1..] + "::" + b;
      assert a == [a[0]] + a[1..];
    }
  }

  function JoinHalves(halves: seq<string>): string
    requires halves != []
  {
    if |halves| == 1 then halves[0] else halves[0] + "::" + JoinHalves(halves[1..])
  }

  lemma {:induction false} JoinOfHalves(s: string)
    ensures JoinHalves(Halves(s)) == s
  {
    if |s| >= 2 {
      if s[0] == ':' && s[1] == ':' {
        JoinOfHalves(s[2..]);
        assert Halves(s)[1..] == Halves(s[2..]);
        assert s == "" + "::" + s[2..];
      } else {
        JoinOfHalves(s[1..]);
        JoinAfterCharacter(s[0], Halves(s[1..]));
        assert s == [s[0]] + s[1..];
      }
    }
  }

  lemma JoinAfterCharacter(c: char, halves: seq<string>)
    requires halves != []
    ensures JoinHalves([[c] + halves[0]] + halves[1..]) == [c] + JoinHalves(halves)
  {
    assert ([[c] + halves[0]] + halves[1..])[1..] == halves[1..];
  }

  lemma TextOfHalves(s: string)
    ensures |Halves(s)| == 1 ==> s == Halves(s)[0]
    ensures |Halves(s)| == 2 ==> s == Halves(s)[0] + "::" + Halves(s)[1]
  {
    JoinOfHalves(s);
  }

  ghost predicate ColonFree(parts: seq<string>) {
    forall p | p in parts :: p != "" && ':' !in p
  }

  lemma {:induction false} JoinHasNoDouble(parts: seq<string>)
    requires ColonFree(parts)
    ensures var s := Join(parts, ':');
            && NoDouble(s)
            && (parts != [] ==> s != "" && s[0] != ':' && s[|s| - 1] != ':')
  {
    if |parts| == 1 {
      assert parts[0] in parts;
    } else if |parts| > 1 {
      assert parts[0] in parts && forall p | p in parts[1..] :: p in parts;
      JoinHasNoDouble(parts[1..]);
    }
  }

  lemma ChunkIffJoin(s: string, groups: seq<nat>)
    ensures ParseChunk(s) == Some(groups) <==>
            exists parts :: SpellsGroups(parts, groups) && s == Join(parts, ':')
  {
    if ParseChunk(s) == Some(groups) {
      if s == "" {
        assert SpellsGroups([], groups) && s == Join([], ':');
      } else {
        var parts := Split(s, ':');
        JoinOfSplit(s, ':');
        GroupsIffSpelling(parts, groups);
        assert SpellsGroups(parts, groups) && s == Join(parts, ':');
      }
    }
    if parts :| SpellsGroups(parts, groups) && s == Join(parts, ':') {
      JoinedChunk(parts, groups);
    }
  }

  lemma JoinedChunk(parts: seq<string>, groups: seq<nat>)
    requires SpellsGroups(parts, groups)
    ensures ParseChunk(Join(parts, ':')) == Some(groups)
    ensures ColonFree(parts)
  {
    GroupsIffSpelling(parts, groups);
    if parts != [] {
      JoinHasNoDouble(parts);
      SplitOfJoin(parts, ':');
    }
  }

  // ------------------------------------------------------------------ expansion inverts printing

  ghost predicate IsPlainFull(s: string, g: seq<nat>, parts: seq<string>) {
    |g| == 8 && SpellsGroups(parts, g) && s == Join(parts, ':')
  }

  ghost predicate IsPlainShort(s: string, g: seq<nat>, head: seq<string>, rest: seq<string>) {
    && |g| == 8 && |head| + |rest| <= 8
    && SpellsGroups(head, g[..|head|]) && SpellsGroups(rest, g[8 - |rest|..])
    && (forall i | |head| <= i < 8 - |rest| :: g[i] == 0)
    && s == Join(head, ':') + "::" + Join(rest, ':')
  }

  lemma PlainFullExpands(s: string, g: seq<nat>, parts: seq<string>)
    requires IsPlainFull(s, g, parts)
    ensures ExpandPlain(s) == Some(g)
  {
    JoinedChunk(parts, g);
    JoinHasNoDouble(parts);
    HalvesOfPlain(s);
  }

  lemma HalvesOfShort(head: seq<string>, rest: seq<string>)
    requires ColonFree(head) && ColonFree(rest)
    ensures Halves(Join(head, ':') + "::" + Join(rest, ':')) == [Join(head, ':'), Join(rest, ':')]
  {
    JoinHasNoDouble(head);
    JoinHasNoDouble(rest);
    HalvesAtDouble(Join(head, ':'), Join(rest, ':'));
    HalvesOfPlain(Join(rest, ':'));
  }

  lemma AroundZeros(g: seq<nat>, h: nat, r: nat)
    requires |g| == 8 && h + r <= 8 && forall i | h <= i < 8 - r :: g[i] == 0
    ensures g == g[..h] + ZeroGroups(8 - h - r) + g[8 - r..]
  {
  }

  lemma PlainShortExpands(s: string, g: seq<nat>, head: seq<string>, rest: seq<string>)
    requires IsPlainShort(s, g, head, rest)
    ensures ExpandPlain(s) == Some(g)
  {
    var h, r := |head|, |rest|;
    AroundZeros(g, h, r);
    JoinedChunk(head, g[..h]);
    JoinedChunk(rest, g[8 - r..]);
    HalvesOfShort(head, rest);
    TwoHalvesExpand(s, Join(head, ':'), Join(rest, ':'), g[..h], g[8 - r..]);
  }

  lemma TwoHalvesExpand(s: string, a: string, b: string, head: seq<nat>, rest: seq<nat>)
    requires Halves(s) == [a, b] && |head| + |rest| <= 8
    requires ParseChunk(a) == Some(head) && ParseChunk(b) == Some(rest)
    ensures ExpandPlain(s) == Some(head + ZeroGroups(8 - |head| - |rest|) + rest)
  {
  }

  lemma ExpandedIsPlain(s: string, g: seq<nat>)
    requires ExpandPlain(s) == Some(g)
    ensures (exists parts :: IsPlainFull(s, g, parts)) || (exists head, rest :: IsPlainShort(s, g, head, rest))
  {
    var halves := Halves(s);
    TextOfHalves(s);
    if |halves| == 1 {
      ChunkIffJoin(s, g);
      var parts :| SpellsGroups(parts, g) && s == Join(parts, ':');
      assert IsPlainFull(s, g, parts);
    } else {
      var headValues, restValues := ParseChunk(halves[0]).value, ParseChunk(halves[1]).value;
      ChunkIffJoin(halves[0], headValues);
      ChunkIffJoin(halves[1], restValues);
      var head :| SpellsGroups(head, headValues) && halves[0] == Join(head, ':');
      var rest :| SpellsGroups(rest, restValues) && halves[1] == Join(rest, ':');
      assert g[..|head|] == headValues;
      assert g[8 - |rest|..] == restValues;
      assert IsPlainShort(s, g, head, rest);
    }
  }

  /** Text that the separator ends, before the last part of a joined list. */
  function Lead(parts: seq<string>): string {
    if parts == [] then "" else Join(parts, ':') + ":"
  }

  lemma JoinWithLast(parts: seq<string>, last: string)
    ensures Join(parts + [last], ':') == Lead(parts) + last
  {
    if parts == [] {
      assert parts + [last] == [last];
    } else {
      JoinConcat(parts, [last], ':');
    }
  }

  lemma JoinWithTwo(parts: seq<string>, x: string, y: string)
    ensures Join(parts + [x, y], ':') == Lead(parts) + x + ":" + y
  {
    JoinWithLast(parts + [x], y);
    JoinWithLast(parts, x);
    assert parts + [x] + [y] == parts + [x, y];
  }

  lemma {:induction false} LastColonIsThere(lead: string, tail: string)
    requires ':' !in tail && (lead == "" || lead[|lead| - 1] == ':')
    ensures AfterLastColon(lead + tail) == |lead|
  {
    var s := lead + tail;
    if tail == "" {
      assert s == lead;
    } else {
      LastColonIsThere(lead, tail[..|tail| - 1]);
      assert s[..|s| - 1] == lead + tail[..|tail| - 1];
    }
  }

  lemma TailIsParsed(tail: string, high: nat, low: nat)
    requires IsDottedTail(tail, high, low)
    ensures ParseIpv4(tail) == Some(OctetsOf(high * 0x1_0000 + low))
  {
    SpellingIsParsed(tail, high * 0x1_0000 + low);
  }

  /** A dotted tail is rewritten to the two groups it spells. */
  lemma DottedTailIsRewritten(lead: string, tail: string, high: nat, low: nat)
    requires IsDottedTail(tail, high, low) && (lead == "" || lead[|lead| - 1] == ':')
    ensures Undotted(lead + tail) == Some(lead + Digits(high, Hex) + ":" + Digits(low, Hex))
  {
    var s, o := lead + tail, OctetsOf(high * 0x1_0000 + low);
    LastColonIsThere(lead, tail);
    TailIsParsed(tail, high, low);
    GroupsOfWord(high, low);
    PairText(lead, o);
  }

  lemma PairText(lead: string, o: Octets)
    ensures lead + TwoGroups(o) == lead + Digits(HighGroup(o), Hex) + ":" + Digits(LowGroup(o), Hex)
  {
    Regroup(lead, "", Digits(HighGroup(o), Hex), Digits(LowGroup(o), Hex));
    assert lead + "" == lead;
    assert "" + Digits(HighGroup(o), Hex) == Digits(HighGroup(o), Hex);
  }

  lemma GroupsOfWord(high: nat, low: nat)
    requires high < 0x1_0000 && low < 0x1_0000
    ensures HighGroup(OctetsOf(high * 0x1_0000 + low)) == high
    ensures LowGroup(OctetsOf(high * 0x1_0000 + low)) == low
  {
    OctetsOfGroups(high, low);
  }

  lemma SpellsWithLastTwo(parts: seq<string>, groups: seq<nat>)
    requires |groups| == |parts| + 2 && SpellsGroups(parts, groups[..|parts|])
    requires groups[|parts|] < 0x1_0000 && groups[|parts| + 1] < 0x1_0000
    ensures SpellsGroups(parts + [Digits(groups[|parts|], Hex), Digits(groups[|parts| + 1], Hex)], groups)
  {
    PrintedGroup(groups[|parts|]);
    PrintedGroup(groups[|parts| + 1]);
    var all := parts + [Digits(groups[|parts|], Hex), Digits(groups[|parts| + 1], Hex)];
    forall i | 0 <= i < |all|
      ensures IsGroupSpelling(all[i], groups[i])
    {
      assert i < |parts| ==> groups[i] == groups[..|parts|][i];
    }
  }

  lemma NoDotInJoin(parts: seq<string>, groups: seq<nat>)
    requires SpellsGroups(parts, groups)
    ensures '.' !in Join(parts, ':')
  {
    GroupsIffSpelling(parts, groups);
    forall c | c in Join(parts, ':')
      ensures c != '.'
    {
      JoinCharacters(parts, ':', c);
      if c != ':' {
        var p :| p in parts && c in p;
        assert IsHexGroup(p);
      }
    }
  }

  lemma FullFormExpands(s: string, g: seq<nat>, parts: seq<string>)
    requires IsFullForm(s, g, parts)
    ensures ExpandBare(s) == Some(g)
  {
    if SpellsGroups(parts, g) {
      NoDotInJoin(parts, g);
      assert Undotted(s) == Some(s);
      PlainFullExpands(s, g, parts);
    } else {
      var six, tail := parts[..6], parts[6];
      assert parts == six + [tail];
      JoinWithLast(six, tail);
      DottedTailIsRewritten(Lead(six), tail, g[6], g[7]);
      var all := six + [Digits(g[6], Hex), Digits(g[7], Hex)];
      SpellsWithLastTwo(six, g);
      JoinWithTwo(six, Digits(g[6], Hex), Digits(g[7], Hex));
      PlainFullExpands(Join(all, ':'), g, all);
    }
  }

  lemma PlainShortFormExpands(s: string, g: seq<nat>, head: seq<string>, rest: seq<string>)
    requires IsPlainShort(s, g, head, rest)
    ensures ExpandBare(s) == Some(g)
  {
    NoDotInJoin(head, g[..|head|]);
    NoDotInJoin(rest, g[8 - |rest|..]);
    PlainShortExpands(s, g, head, rest);
    assert s[|Join(head, ':')|] == ':';
    assert Undotted(s) == Some(s);
  }

  /** The groups after "::" are those of the printed front, and two more. */
  ghost predicate EndsInPair(g: seq<nat>, head: seq<string>, front: seq<string>, groups: seq<nat>, high: nat, low: nat) {
    && |g| == 8 && |groups| == |front| + 2 && |head| + |groups| <= 8 && groups == g[8 - |groups|..]
    && SpellsGroups(head, g[..|head|]) && SpellsGroups(front, groups[..|front|])
    && (forall i | |head| <= i < 8 - |groups| :: g[i] == 0)
    && groups[|front|] == high && groups[|front| + 1] == low
  }

  lemma PairIsSpelled(front: seq<string>, groups: seq<nat>, high: nat, low: nat) returns (all: seq<string>)
    requires |groups| == |front| + 2 && SpellsGroups(front, groups[..|front|])
    requires groups[|front|] == high < 0x1_0000 && groups[|front| + 1] == low < 0x1_0000
    ensures all == front + [Digits(high, Hex), Digits(low, Hex)] && SpellsGroups(all, groups)
  {
    all := front + [Digits(high, Hex), Digits(low, Hex)];
    SpellsWithLastTwo(front, groups);
  }

  lemma WithPairIsShort(
    g: seq<nat>, head: seq<string>, front: seq<string>, groups: seq<nat>, high: nat, low: nat)
    requires EndsInPair(g, head, front, groups, high, low) && high < 0x1_0000 && low < 0x1_0000
    ensures var all := front + [Digits(high, Hex), Digits(low, Hex)];
            ExpandPlain(Join(head, ':') + "::" + Join(all, ':')) == Some(g)
  {
    var all := PairIsSpelled(front, groups, high, low);
    assert |all| == |groups|;
    PlainShortExpands(Join(head, ':') + "::" + Join(all, ':'), g, head, all);
  }

  lemma DottedTextIsRewritten(a: string, front: seq<string>, tail: string, high: nat, low: nat)
    requires a != "" && a[|a| - 1] == ':' && IsDottedTail(tail, high, low)
    ensures Undotted(a + Lead(front) + tail) == Some(a + Join(front + [Digits(high, Hex), Digits(low, Hex)], ':'))
  {
    DottedTailIsRewritten(a + Lead(front), tail, high, low);
    JoinWithTwo(front, Digits(high, Hex), Digits(low, Hex));
    Regroup(a, Lead(front), Digits(high, Hex), Digits(low, Hex));
  }

  lemma DottedShortFormExpands(
    g: seq<nat>, head: seq<string>, front: seq<string>, tail: string, groups: seq<nat>, high: nat, low: nat)
    requires EndsInPair(g, head, front, groups, high, low) && IsDottedTail(tail, high, low)
    ensures ExpandBare(Join(head, ':') + "::" + Lead(front) + tail) == Some(g)
  {
    var a := Join(head, ':') + "::";
    WithPairIsShort(g, head, front, groups, high, low);
    DottedTextIsRewritten(a, front, tail, high, low);
    var s := a + Lead(front) + tail;
    assert s[|a| - 1] == ':';
  }

  lemma Regroup(a: string, lead: string, x: string, y: string)
    ensures a + lead + x + ":" + y == a + (lead + x + ":" + y)
    ensures lead + x + ":" + y == lead + (x + ":" + y)
  {
  }

  lemma TailPart(rest: seq<string>, groups: seq<nat>) returns (front: seq<string>, tail: string)
    requires SpellsWithTail(rest, groups) && !SpellsGroups(rest, groups)
    ensures rest == front + [tail] && |groups| == |front| + 2 && SpellsGroups(front, groups[..|front|])
    ensures IsDottedTail(tail, groups[|front|], groups[|front| + 1])
  {
    var k := |rest| - 1;
    front, tail := rest[..k], rest[k];
  }

  lemma DottedRestExpands(s: string, g: seq<nat>, head: seq<string>, front: seq<string>, tail: string, groups: seq<nat>)
    requires |front| < |groups| - 1 && EndsInPair(g, head, front, groups, groups[|front|], groups[|front| + 1])
    requires IsDottedTail(tail, groups[|front|], groups[|front| + 1])
    requires s == Join(head, ':') + "::" + Join(front + [tail], ':')
    ensures ExpandBare(s) == Some(g)
  {
    JoinWithLast(front, tail);
    Regrouped(Join(head, ':') + "::", Lead(front), tail);
    DottedShortFormExpands(g, head, front, tail, groups, groups[|front|], groups[|front| + 1]);
  }

  lemma Regrouped(a: string, lead: string, tail: string)
    ensures a + lead + tail == a + (lead + tail)
  {
  }

  lemma ShortFormExpands(s: string, g: seq<nat>, head: seq<string>, rest: seq<string>, n: nat)
    requires IsShortForm(s, g, head, rest, n)
    ensures ExpandBare(s) == Some(g)
  {
    var groups := g[8 - n..];
    if SpellsGroups(rest, groups) {
      PlainShortFormExpands(s, g, head, rest);
    } else {
      var front, tail := TailPart(rest, groups);
      DottedRestExpands(s, g, head, front, tail, groups);
    }
  }

  // -------------------------------------------------------------- whatever expands was a printing

  lemma {:induction false} SplitAtLast(x: string, y: string)
    requires ':' !in y
    ensures Split(x + ":" + y, ':') == Split(x, ':') + [y]
  {
    var parts := Split(x, ':');
    JoinOfSplit(x, ':');
    SplitHasNoSeparator(x, ':');
    JoinConcat(parts, [y], ':');
    SplitOfJoin(parts + [y], ':');
  }

  lemma SplitOfLastTwo(lead: string, x: string, y: string) returns (front: seq<string>)
    requires ':' !in x && ':' !in y && (lead == "" || lead[|lead| - 1] == ':')
    ensures Split(lead + x + ":" + y, ':') == front + [x, y]
  {
    SplitAtLast(lead + x, y);
    if lead == "" {
      front := [];
      assert lead + x == x;
      SplitOfPlain(x, ':');
    } else {
      var before := lead[..|lead| - 1];
      front := Split(before, ':');
      assert lead == before + ":";
      SplitAtLast(before, x);
    }
  }

  /** The last two parts of a joined list can be read off the end of its text. */
  lemma LastTwoParts(parts: seq<string>, lead: string, x: string, y: string) returns (front: seq<string>)
    requires parts != [] && ColonFree(parts) && ':' !in x && ':' !in y
    requires Join(parts, ':') == lead + x + ":" + y && (lead == "" || lead[|lead| - 1] == ':')
    ensures parts == front + [x, y] && Lead(front) == lead
  {
    SplitOfJoin(parts, ':');
    front := SplitOfLastTwo(lead, x, y);
    JoinWithTwo(front, x, y);
    Regroup("", lead, x, y);
    Regroup("", Lead(front), x, y);
    SameLead(Lead(front), lead, x + ":" + y);
  }

  lemma SameLead(a: string, b: string, end: string)
    requires a + end == b + end
    ensures a == b
  {
    assert |a| == |b|;
    assert a == (a + end)[..|a|] && b == (b + end)[..|b|];
  }

  lemma SameGroup(p: string, v: nat, w: nat)
    requires IsGroupSpelling(p, v) && IsGroupSpelling(p, w)
    ensures v == w
  {
    GroupIffSpelling(p, v);
    GroupIffSpelling(p, w);
  }

  lemma ParsedTail(tail: string, o: Octets)
    requires '.' in tail && ':' !in tail && ParseIpv4(tail) == Some(o)
    ensures IsDottedTail(tail, HighGroup(o), LowGroup(o))
  {
    var n := ParsedValue(tail, o);
    GroupsOfOctets(n);
    assert HighGroup(o) * 0x1_0000 + LowGroup(o) == n;
  }

  lemma GroupsOfOctets(n: nat)
    requires n <= 0xffff_ffff
    ensures var o := OctetsOf(n);
            && HighGroup(o) < 0x1_0000 && LowGroup(o) < 0x1_0000
            && n == HighGroup(o) * 0x1_0000 + LowGroup(o)
  {
    OctetsReadBack(n);
    QuotientsChain(n);
  }

  lemma ParsedValue(tail: string, o: Octets) returns (n: nat)
    requires ParseIpv4(tail) == Some(o)
    ensures n <= 0xffff_ffff && o == OctetsOf(n) && IsIpv4Spelling(Trim(tail), n)
  {
    var nums := Values(Split(Trim(tail), '.'));
    AtonBelow(nums, 4);
    Powers();
    n := Aton(nums, 4).value;
    ParsedIffSpelling(tail, n);
  }

  /** A text that ends in two printed groups has its "::" before them. */
  lemma DoubleIsInLead(a: string, b: string, lead: string, x: string, y: string)
    requires a + "::" + b == lead + x + ":" + y && lead != "" && lead[|lead| - 1] == ':'
    requires ColonFree([x, y])
    ensures |a| + 2 <= |lead| && lead == a + "::" + lead[|a| + 2..]
    ensures b == lead[|a| + 2..] + x + ":" + y
  {
    var s, end := a + "::" + b, Join([x, y], ':');
    JoinHasNoDouble([x, y]);
    assert [x, y][1..] == [y];
    Regroup("", lead, x, y);
    DoublePosition(s, lead, end, |a|);
    assert s[..|a| + 2] == a + "::" && s[|a| + 2..] == b;
    assert s[..|lead|] == lead;
    assert lead[..|a| + 2] == a + "::";
  }

  lemma DoublePosition(s: string, lead: string, end: string, k: nat)
    requires s == lead + end && NoDouble(end) && end != "" && end[0] != ':'
    requires k + 1 < |s| && s[k] == ':' && s[k + 1] == ':'
    ensures k + 2 <= |lead|
  {
    forall i | |lead| - 1 <= i < |s| - 1
      ensures i < 0 || !(s[i] == ':' && s[i + 1] == ':')
    {
      if i >= |lead| {
        assert s[i] == end[i - |lead|] && s[i + 1] == end[i + 1 - |lead|];
      } else if i >= 0 {
        assert s[i + 1] == end[0];
      }
    }
  }

  /** A list of printed groups whose text ends in two given groups. */
  lemma RestEndsInPair(
    parts: seq<string>, lead: string, groups: seq<nat>, x: string, y: string, high: nat, low: nat)
    returns (front: seq<string>)
    requires parts != [] && SpellsGroups(parts, groups) && (lead == "" || lead[|lead| - 1] == ':')
    requires SpellsGroups([x, y], [high, low]) && Join(parts, ':') == lead + x + ":" + y
    ensures Lead(front) == lead && |groups| == |front| + 2 && SpellsGroups(front, groups[..|front|])
    ensures groups[|front|] == high && groups[|front| + 1] == low
  {
    JoinedChunk([x, y], [high, low]);
    JoinedChunk(parts, groups);
    assert x in [x, y] && y in [x, y];
    front := LastTwoParts(parts, lead, x, y);
    var n := |front|;
    assert parts[n] == x && parts[n + 1] == y;
    assert IsGroupSpelling([x, y][0], [high, low][0]) && IsGroupSpelling([x, y][1], [high, low][1]);
    SameGroup(x, groups[n], high);
    SameGroup(y, groups[n + 1], low);
  }

  lemma DottedFullIsPrinting(
    lead: string, tail: string, g: seq<nat>, parts: seq<string>, x: string, y: string, high: nat, low: nat)
    requires lead != "" && lead[|lead| - 1] == ':' && IsDottedTail(tail, high, low)
    requires SpellsGroups([x, y], [high, low]) && IsPlainFull(lead + x + ":" + y, g, parts)
    ensures IsPrinting(lead + tail, g)
  {
    var front := RestEndsInPair(parts, lead, g, x, y, high, low);
    var all := front + [tail];
    JoinWithLast(front, tail);
    assert all[..6] == front;
    assert IsFullForm(lead + tail, g, all);
  }

  lemma DottedShortIsPrinting(
    lead: string, tail: string, g: seq<nat>, head: seq<string>, rest: seq<string>,
    x: string, y: string, high: nat, low: nat)
    requires lead != "" && lead[|lead| - 1] == ':' && IsDottedTail(tail, high, low)
    requires SpellsGroups([x, y], [high, low]) && IsPlainShort(lead + x + ":" + y, g, head, rest)
    ensures IsPrinting(lead + tail, g)
  {
    var a, n := Join(head, ':'), |rest|;
    JoinedChunk([x, y], [high, low]);
    DoubleIsInLead(a, Join(rest, ':'), lead, x, y);
    var restLead := lead[|a| + 2..];
    var front := RestEndsInPair(rest, restLead, g[8 - n..], x, y, high, low);
    JoinWithLast(front, tail);
    Regrouped(a + "::", restLead, tail);
    ShortWithTail(lead + tail, g, head, front, tail, n);
  }

  lemma ShortWithTail(s: string, g: seq<nat>, head: seq<string>, front: seq<string>, tail: string, n: nat)
    requires |g| == 8 && n == |front| + 2 && |head| + n <= 8
    requires SpellsGroups(head, g[..|head|]) && forall i | |head| <= i < 8 - n :: g[i] == 0
    requires SpellsGroups(front, g[8 - n..][..n - 2])
    requires IsDottedTail(tail, g[8 - n..][n - 2], g[8 - n..][n - 1])
    requires s == Join(head, ':') + "::" + Join(front + [tail], ':')
    ensures IsPrinting(s, g)
  {
    var all, tailGroups := front + [tail], g[8 - n..];
    assert all[..|front|] == front;
    assert SpellsWithTail(all, tailGroups);
    assert IsShortForm(s, g, head, all, n);
  }

  lemma ExpandedIsPrinting(s: string, g: seq<nat>)
    requires ExpandBare(s) == Some(g)
    ensures IsPrinting(s, g)
  {
    var k := AfterLastColon(s);
    if '.' !in s[k..] {
      PlainIsPrinting(s, g);
    } else {
      assert s == s[..k] + s[k..];
      TailIsPrinting(s, g, s[..k], s[k..]);
    }
  }

  lemma PlainIsPrinting(s: string, g: seq<nat>)
    requires ExpandPlain(s) == Some(g)
    ensures IsPrinting(s, g)
  {
    ExpandedIsPlain(s, g);
    if parts :| IsPlainFull(s, g, parts) {
      assert IsFullForm(s, g, parts);
    } else {
      var head, rest :| IsPlainShort(s, g, head, rest);
      assert IsShortForm(s, g, head, rest, |rest|);
    }
  }

  lemma TailIsPrinting(s: string, g: seq<nat>, lead: string, tail: string)
    requires lead != "" && lead[|lead| - 1] == ':' && '.' in tail && ':' !in tail && s == lead + tail
    requires ParseIpv4(tail).Some? && ExpandPlain(lead + TwoGroups(ParseIpv4(tail).value)) == Some(g)
    ensures IsPrinting(s, g)
  {
    var o := ParseIpv4(tail).value;
    ExpandedIsPlain(lead + TwoGroups(o), g);
    ParsedTail(tail, o);
    PrintedGroup(HighGroup(o));
    PrintedGroup(LowGroup(o));
    PairText(lead, o);
    DottedIsPrinting(lead, tail, g, Digits(HighGroup(o), Hex), Digits(LowGroup(o), Hex), HighGroup(o), LowGroup(o));
  }

  lemma DottedIsPrinting(lead: string, tail: string, g: seq<nat>, x: string, y: string, high: nat, low: nat)
    requires lead != "" && lead[|lead| - 1] == ':' && IsDottedTail(tail, high, low)
    requires SpellsGroups([x, y], [high, low])
    requires (exists parts :: IsPlainFull(lead + x + ":" + y, g, parts))
             || (exists head, rest :: IsPlainShort(lead + x + ":" + y, g, head, rest))
    ensures IsPrinting(lead + tail, g)
  {
    if parts :| IsPlainFull(lead + x + ":" + y, g, parts) {
      DottedFullIsPrinting(lead, tail, g, parts, x, y, high, low);
    } else {
      var head, rest :| IsPlainShort(lead + x + ":" + y, g, head, rest);
      DottedShortIsPrinting(lead, tail, g, head, rest, x, y, high, low);
    }
  }

  /**
   * Expansion inverts printing: a text is expanded to g exactly when, trimmed, in lower case and
   * without its brackets, it is one of the printed forms of g. A "::" may stand for no group at
   * all, which section 2.2 of RFC 4291 does not allow; the expansion takes it.
   */
  lemma ExpandedIffPrinting(input: string, g: seq<nat>)
    ensures Expand(input) == Some(g) <==> IsPrinting(Unbracket(Lower(Trim(input))), g)
  {
    var s := Unbracket(Lower(Trim(input)));
    if Expand(input) == Some(g) {
      ExpandedIsPrinting(s, g);
    }
    if IsPrinting(s, g) {
      PrintingIsExpanded(s, g);
    }
  }

  lemma PrintingIsExpanded(s: string, g: seq<nat>)
    requires IsPrinting(s, g)
    ensures ExpandBare(s) == Some(g)
  {
    if parts :| IsFullForm(s, g, parts) {
      FullFormExpands(s, g, parts);
    } else {
      var head, rest, n: nat :| IsShortForm(s, g, head, rest, n);
      ShortFormExpands(s, g, head, rest, n);
    }
  }

  /** Whatever is accepted has eight groups of 16 bits. */
  lemma ExpandedIsEightGroups(input: string)
    requires Expand(input).Some?
    ensures |Expand(input).value| == 8 && forall v | v in Expand(input).value :: v < 0x1_0000
  {
    PlainIsEightGroups(Undotted(Unbracket(Lower(Trim(input)))).value, Expand(input).value);
  }

  lemma PlainIsEightGroups(s: string, g: seq<nat>)
    requires ExpandPlain(s) == Some(g)
    ensures |g| == 8 && forall v | v in g :: v < 0x1_0000
  {
    ExpandedIsPlain(s, g);
    if parts :| IsPlainFull(s, g, parts) {
      SpelledGroupsAreShort(parts, g);
    } else {
      var head, rest :| IsPlainShort(s, g, head, rest);
      SpelledGroupsAreShort(head, g[..|head|]);
      SpelledGroupsAreShort(rest, g[8 - |rest|..]);
      AroundZeros(g, |head|, |rest|);
    }
  }

  lemma SpelledGroupsAreShort(parts: seq<string>, groups: seq<nat>)
    requires SpellsGroups(parts, groups)
    ensures forall v | v in groups :: v < 0x1_0000
  {
    forall i | 0 <= i < |groups|
      ensures groups[i] < 0x1_0000
    {
      GroupIffSpelling(parts[i], groups[i]);
      RadixBelow(parts[i]);
    }
  }

  /** A printed form is read back bare and in brackets. */
  lemma PrintingIsReadBack(s: string, g: seq<nat>)
    requires IsPrinting(s, g) && IsTrimmed(s) && IsLower(s) && s != "" && s[0] != '['
    ensures Expand(s) == Some(g) && Expand("[" + s + "]") == Some(g)
  {
    PrintingIsExpanded(s, g);
    BareText(s);
    BracketedText(s);
  }

  lemma BareText(s: string)
    requires IsTrimmed(s) && IsLower(s) && s != "" && s[0] != '['
    ensures Unbracket(Lower(Trim(s))) == s
  {
  }

  lemma BracketedText(s: string)
    requires IsLower(s)
    ensures Unbracket(Lower(Trim("[" + s + "]"))) == s
  {
    var t := "[" + s + "]";
    assert t[1..|t| - 1] == s;
  }

  // ------------------------------------------------------------------------------------ verdicts

  predicate AllZero(groups: seq<nat>) {
    forall i | 0 <= i < |groups| :: groups[i] == 0
  }

  /** The mask tests of isGlobalIpv6. */
  predicate IsGlobalIpv6(g: seq<nat>)
    requires |g| == 8
  {
    if AllZero(g) then false
    else if AllZero(g[..7]) && g[7] == 1 then false
    else if And(g[0], 0xfe00) == 0xfc00 then false
    else if And(g[0], 0xffc0) == 0xfe80 then false
    else if AllZero(g[..5]) && g[5] == 0xffff then
      IsGlobalIpv4(Octets(And(Shr(g[6], 8), 0xff), And(g[6], 0xff), And(Shr(g[7], 8), 0xff), And(g[7], 0xff)))
    else true
  }

  ghost predicate IsAddress(g: seq<nat>) {
    |g| == 8 && forall i | 0 <= i < 8 :: g[i] < 0x1_0000
  }

  /** The address as one number: its groups, most significant first. */
  function AddressValue(g: seq<nat>): nat {
    if g == [] then 0 else AddressValue(g[..|g| - 1]) * 0x1_0000 + g[|g| - 1]
  }

  predicate InBlock6(v: nat, b: Block)
    requires b.length <= 128
  {
    b.first <= v < b.first + Pow2(128 - b.length)
  }

  const UNSPECIFIED: Block := Block(0, 128)
  const LOOPBACK: Block := Block(1, 128)
  const UNIQUE_LOCAL: Block := Block(Shl(0xfc00, 112), 7)
  const LINK_LOCAL: Block := Block(Shl(0xfe80, 112), 10)
  const MAPPED: Block := Block(Shl(0xffff, 32), 96)

  /** A mask of ones above k bits keeps the bits of a small word above k. */
  lemma MaskAbove(a: nat, ones: nat, k: nat)
    requires a < Pow2(k + ones)
    ensures And(a, Shl(Pow2(ones) - 1, k)) == Shl(Shr(a, k), k)
  {
    AndShiftedMask(a, Pow2(ones) - 1, k);
    AndLowMask(Shr(a, k), ones);
    ShiftsAdd(a, k, ones);
    ShrBelow(a, k + ones);
    ShlOfZero(ones);
  }

  lemma {:induction false} ShlOfZero(k: nat)
    ensures Shl(0, k) == 0
  {
    if k > 0 {
      ShlOfZero(k - 1);
    }
  }

  lemma ShiftBySix(a: nat)
    ensures Shl(a, 6) == 64 * a && Shr(a, 6) == a / 64
  {
    ShiftsAdd(a, 4, 2);
    ShiftByFour(a);
    var b := a / 16;
    assert Shl(16 * a, 2) == 64 * a && Shr(b, 2) == Shr(b / 2, 1) == b / 2 / 2;
  }

  lemma ShiftByNine(a: nat)
    ensures Shl(a, 9) == 512 * a && Shr(a, 9) == a / 512
  {
    ShiftsAdd(a, 8, 1);
    ShiftByEight(a);
    assert Shl(256 * a, 1) == 512 * a && Shr(a / 256, 1) == a / 256 / 2;
  }

  lemma SmallPowers()
    ensures Pow2(0) == 1 && Pow2(6) == 0x40 && Pow2(7) == 0x80 && Pow2(9) == 0x200 && Pow2(10) == 0x400
    ensures Pow2(16) == 0x1_0000
  {
    Powers();
    assert Pow2(4) == 4 * Pow2(2);
    assert Pow2(5) == 2 * Pow2(4);
  }

  lemma SevenBitsAbove(a: nat, mask: nat)
    requires a < 0x1_0000 && mask == 0xfe00
    ensures And(a, mask) == 512 * (a / 512)
  {
    SmallPowers();
    MaskAbove(a, 7, 9);
    ShiftByNine(0x7f);
    ShiftByNine(a);
    ShiftByNine(a / 512);
  }

  lemma TenBitsAbove(a: nat, mask: nat)
    requires a < 0x1_0000 && mask == 0xffc0
    ensures And(a, mask) == 64 * (a / 64)
  {
    SmallPowers();
    MaskAbove(a, 10, 6);
    ShiftBySix(0x3ff);
    ShiftBySix(a);
    ShiftBySix(a / 64);
  }

  lemma UniqueLocalMask(a: nat)
    requires a < 0x1_0000
    ensures And(a, 0xfe00) == 0xfc00 <==> 0xfc00 <= a < 0xfe00
  {
    SevenBitsAbove(a, 0xfe00);
  }

  lemma LinkLocalMask(a: nat)
    requires a < 0x1_0000
    ensures And(a, 0xffc0) == 0xfe80 <==> 0xfe80 <= a < 0xfec0
  {
    TenBitsAbove(a, 0xffc0);
  }

  lemma GroupOctets(v: nat)
    requires v < 0x1_0000
    ensures And(Shr(v, 8), 0xff) == v / 0x100 && And(v, 0xff) == v % 0x100
  {
    ShiftByEight(v);
    LowOctet(Shr(v, 8));
    LowOctet(v);
  }

  lemma {:induction false} AddressBelow(g: seq<nat>)
    requires forall i | 0 <= i < |g| :: g[i] < 0x1_0000
    ensures AddressValue(g) < Pow2(16 * |g|)
  {
    if g != [] {
      var n := |g| - 1;
      AddressBelow(g[..n]);
      ShiftsAdd(1, 16 * n, 16);
      ShiftBySixteen(Pow2(16 * n));
    }
  }

  /** The number is its leading groups shifted, plus the number of the others. */
  lemma {:induction false} AddressSplits(g: seq<nat>, k: nat)
    requires k <= |g|
    ensures AddressValue(g) == Shl(AddressValue(g[..k]), 16 * (|g| - k)) + AddressValue(g[k..])
    decreases |g| - k
  {
    if k == |g| {
      assert g[..k] == g;
    } else {
      var init, n := g[..|g| - 1], 16 * (|g| - 1 - k);
      AddressSplits(init, k);
      assert init[..k] == g[..k] && init[k..] == g[k..][..|g| - k - 1];
      ShiftsAdd(AddressValue(g[..k]), n, 16);
      ShiftBySixteen(Shl(AddressValue(g[..k]), n));
    }
  }

  lemma {:induction false} ZeroAddress(g: seq<nat>)
    ensures AddressValue(g) == 0 <==> AllZero(g)
  {
    if g != [] {
      ZeroAddress(g[..|g| - 1]);
      assert AllZero(g) <==> AllZero(g[..|g| - 1]) && g[|g| - 1] == 0;
    }
  }

  lemma AddressOfOne(v: nat)
    ensures AddressValue([v]) == v
  {
    assert [v][..0] == [];
  }

  lemma AddressOfTwo(v: nat, w: nat)
    ensures AddressValue([v, w]) == v * 0x1_0000 + w
  {
    assert [v, w][..1] == [v];
    AddressOfOne(v);
  }

  /** The first group decides membership in a block of at most 16 leading bits. */
  lemma LeadingGroup(g: seq<nat>, first: nat, length: nat)
    requires IsAddress(g) && length <= 16
    ensures InBlock6(AddressValue(g), Block(Shl(first, 112), length))
            <==> first <= g[0] < first + Pow2(16 - length)
  {
    LeadingGroupAt(g, first, length, 112);
  }

  lemma LeadingGroupAt(g: seq<nat>, first: nat, length: nat, k: nat)
    requires IsAddress(g) && length <= 16 && k == 112
    ensures InBlock6(AddressValue(g), Block(Shl(first, k), length))
            <==> first <= g[0] < first + Pow2(16 - length)
  {
    var low := AddressHead(g, k);
    BlockSize(length, k);
    LeadingDigits(g[0], low, k, first, Pow2(16 - length));
  }

  lemma BlockSize(length: nat, k: nat)
    requires length <= 16 && k == 112
    ensures Pow2(128 - length) == Shl(Pow2(16 - length), k)
  {
    ShiftsAdd(1, 16 - length, k);
  }

  lemma AddressHead(g: seq<nat>, k: nat) returns (low: nat)
    requires IsAddress(g) && k == 112
    ensures AddressValue(g) == Shl(g[0], k) + low && low < Pow2(k)
  {
    low := AddressValue(g[1..]);
    AddressSplits(g, 1);
    assert g[..1] == [g[0]];
    AddressOfOne(g[0]);
    AddressBelow(g[1..]);
  }

  lemma LeadingDigits(high: nat, low: nat, k: nat, first: nat, size: nat)
    requires low < Pow2(k)
    ensures Shl(first, k) <= Shl(high, k) + low < Shl(first, k) + Shl(size, k) <==> first <= high < first + size
  {
    ShlOrder(high, first, low, k);
    ShlOrder(high, first + size, low, k);
    ShlOfSum(first, size, k);
  }

  lemma LastTwoGroups(g: seq<nat>)
    requires IsAddress(g)
    ensures AddressValue(g) == Shl(AddressValue(g[..6]), 32) + (g[6] * 0x1_0000 + g[7])
  {
    AddressSplits(g, 6);
    assert g[6..] == [g[6], g[7]];
    AddressOfTwo(g[6], g[7]);
  }

  lemma SixGroups(g: seq<nat>)
    requires IsAddress(g)
    ensures AddressValue(g[..6]) == 0xffff <==> AllZero(g[..5]) && g[5] == 0xffff
  {
    assert g[..6][..5] == g[..5];
    ZeroAddress(g[..5]);
    assert AddressValue(g[..6]) == AddressValue(g[..5]) * 0x1_0000 + g[5];
  }

  /** The mapped block holds exactly the addresses 0:0:0:0:0:ffff:x:y. */
  lemma MappedGroups(g: seq<nat>)
    requires IsAddress(g)
    ensures InBlock6(AddressValue(g), MAPPED) <==> AllZero(g[..5]) && g[5] == 0xffff
    ensures AllZero(g[..5]) && g[5] == 0xffff ==> AddressValue(g) - MAPPED.first == g[6] * 0x1_0000 + g[7]
  {
    LastTwoGroups(g);
    SixGroups(g);
    Powers();
    PowIsShift(32);
    LeadingDigits(AddressValue(g[..6]), g[6] * 0x1_0000 + g[7], 32, 0xffff, 1);
  }

  /**
   * An IPv6 address is global exactly when it lies outside ::/128, ::1/128, fc00::/7 and fe80::/10
   * and, if it is an IPv4-mapped address (section 2.5.5.2 of RFC 4291), the IPv4 address in its
   * last 32 bits is global.
   */
  lemma GlobalIffOutsideBlocks6(g: seq<nat>)
    requires IsAddress(g)
    ensures var v := AddressValue(g);
            IsGlobalIpv6(g) <==>
            && !InBlock6(v, UNSPECIFIED) && !InBlock6(v, LOOPBACK)
            && !InBlock6(v, UNIQUE_LOCAL) && !InBlock6(v, LINK_LOCAL)
            && (InBlock6(v, MAPPED) ==> !InAnyBlock4(v - MAPPED.first))
  {
    VerdictByGroups(g);
    BlocksByGroups(g);
  }

  /** The address blocks, read off the groups. */
  lemma BlocksByGroups(g: seq<nat>)
    requires IsAddress(g)
    ensures var v := AddressValue(g);
            (&& !InBlock6(v, UNSPECIFIED) && !InBlock6(v, LOOPBACK)
             && !InBlock6(v, UNIQUE_LOCAL) && !InBlock6(v, LINK_LOCAL)
             && (InBlock6(v, MAPPED) ==> !InAnyBlock4(v - MAPPED.first)))
            <==>
            (&& !AllZero(g) && !(AllZero(g[..7]) && g[7] == 1)
             && !(0xfc00 <= g[0] < 0xfe00) && !(0xfe80 <= g[0] < 0xfec0)
             && (AllZero(g[..5]) && g[5] == 0xffff ==> !InAnyBlock4(g[6] * 0x1_0000 + g[7])))
  {
    SmallAddresses(g);
    LeadingBlocks(g);
    MappedGroups(g);
  }

  /** The verdict without masks. */
  lemma VerdictByGroups(g: seq<nat>)
    requires IsAddress(g)
    ensures IsGlobalIpv6(g) <==>
            && !AllZero(g) && !(AllZero(g[..7]) && g[7] == 1)
            && !(0xfc00 <= g[0] < 0xfe00) && !(0xfe80 <= g[0] < 0xfec0)
            && (AllZero(g[..5]) && g[5] == 0xffff ==> !InAnyBlock4(g[6] * 0x1_0000 + g[7]))
  {
    UniqueLocalMask(g[0]);
    LinkLocalMask(g[0]);
    MappedVerdict(g[6], g[7]);
  }

  lemma LeadingBlocks(g: seq<nat>)
    requires IsAddress(g)
    ensures InBlock6(AddressValue(g), UNIQUE_LOCAL) <==> 0xfc00 <= g[0] < 0xfe00
    ensures InBlock6(AddressValue(g), LINK_LOCAL) <==> 0xfe80 <= g[0] < 0xfec0
  {
    SmallPowers();
    LeadingGroup(g, 0xfc00, 7);
    LeadingGroup(g, 0xfe80, 10);
  }

  lemma SmallAddresses(g: seq<nat>)
    requires IsAddress(g)
    ensures InBlock6(AddressValue(g), UNSPECIFIED) <==> AllZero(g)
    ensures InBlock6(AddressValue(g), LOOPBACK) <==> AllZero(g[..7]) && g[7] == 1
  {
    SmallPowers();
    ZeroAddress(g);
    ZeroAddress(g[..7]);
    assert AddressValue(g) == AddressValue(g[..7]) * 0x1_0000 + g[7];
  }

  lemma MappedVerdict(high: nat, low: nat)
    requires high < 0x1_0000 && low < 0x1_0000
    ensures IsGlobalIpv4(Octets(And(Shr(high, 8), 0xff), And(high, 0xff), And(Shr(low, 8), 0xff), And(low, 0xff)))
            <==> !InAnyBlock4(high * 0x1_0000 + low)
  {
    MaskedOctets(high, low);
    GlobalIffOutsideBlocks4(high * 0x1_0000 + low);
  }

  lemma MaskedOctets(high: nat, low: nat)
    requires high < 0x1_0000 && low < 0x1_0000
    ensures Octets(And(Shr(high, 8), 0xff), And(high, 0xff), And(Shr(low, 8), 0xff), And(low, 0xff))
            == OctetsOf(high * 0x1_0000 + low)
  {
    GroupOctets(high);
    GroupOctets(low);
    OctetsOfGroups(high, low);
  }

  lemma OctetsOfGroups(high: nat, low: nat)
    requires high < 0x1_0000 && low < 0x1_0000
    ensures OctetsOf(high * 0x1_0000 + low) == Octets(high / 0x100, high % 0x100, low / 0x100, low % 0x100)
  {
    OctetsOfSum(high / 0x100, high % 0x100, low / 0x100, low % 0x100);
  }
}
