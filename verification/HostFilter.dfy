/** The host filter of the icon proxy (src/services/ssrf.ts). */
module HostFilter {

  import opened Base
  import opened Bits
  import opened Text
  import opened Numerals
  import opened Ipv4
  import opened Ipv6

  datatype ParsedHost =
    | Ipv4Host(value: string)
    | Ipv6Host(value: string)
    | DomainHost(value: string)

  const MAX_HOST: nat := 253
  const MAX_LABEL: nat := 63

  const INTERNAL_SUFFIXES: seq<string> := [".local", ".internal", ".localhost", ".home.arpa"]
  const INTERNAL_NAMES: seq<string> := ["localhost", "metadata.google.internal"]

  predicate EndsWith(s: string, suffix: string) {
    |suffix| <= |s| && s[|s| - |suffix|..] == suffix
  }

  predicate IsInternalName(host: string) {
    host in INTERNAL_NAMES || exists suffix | suffix in INTERNAL_SUFFIXES :: EndsWith(host, suffix)
  }

  predicate IsLabelChar(c: char) {
    'a' <= c <= 'z' || '0' <= c <= '9' || c == '-'
  }

  predicate IsLabel(name: string) {
    && name != "" && |name| <= MAX_LABEL
    && name[0] != '-' && name[|name| - 1] != '-'
    && forall c | c in name :: IsLabelChar(c)
  }

  predicate IsTld(name: string) {
    |name| >= 2 && forall c | c in name :: 'a' <= c <= 'z'
  }

  predicate IsDomainName(host: string) {
    var labels := Split(host, '.');
    |labels| >= 2 && (forall l | l in labels :: IsLabel(l)) && IsTld(labels[|labels| - 1])
  }

  /** The host without a leading "[" and without a trailing "]". */
  function StripBrackets(host: string): string {
    var s := if host != "" && host[0] == '[' then host[1..] else host;
    if s != "" && s[|s| - 1] == ']' then s[..|s| - 1] else s
  }

  function Dotted(o: Octets): string {
    Join([Digits(o.a, Decimal), Digits(o.b, Decimal), Digits(o.c, Decimal), Digits(o.d, Decimal)], '.')
  }

  predicate LooksLikeIpv6(host: string) {
    (host != "" && host[0] == '[') || (':' in host && '.' !in host)
  }

  /** The verdict on a host that is already trimmed and in lower case. */
  function Verdict(host: string): Option<ParsedHost> {
    if host == "" || |host| > MAX_HOST then None
    else if LooksLikeIpv6(host) then
      match Expand(host)
      case None => None
      case Some(g) => if IsGlobalIpv6(g) then Some(Ipv6Host(StripBrackets(host))) else None
    else
      match ParseIpv4(host)
      case Some(o) => if IsGlobalIpv4(o) then Some(Ipv4Host(Dotted(o))) else None
      case None => if !IsInternalName(host) && IsDomainName(host) then Some(DomainHost(host)) else None
  }

  function SafeHost(raw: string): Option<ParsedHost> {
    Verdict(Lower(Trim(raw)))
  }

  method GetSafeHost(rawHost: string) returns (r: Option<ParsedHost>)
    ensures r == SafeHost(rawHost)
  {
    var host := Lower(Trim(rawHost));
    if host == "" || |host| > MAX_HOST {
      return None;
    }
    if host[0] == '[' || (':' in host && '.' !in host) {
      var groups := ExpandIpv6(host);
      if groups == None || !IsGlobalIpv6(groups.value) {
        return None;
      }
      return Some(Ipv6Host(StripBrackets(host)));
    }
    var v4 := ParseToIpv4(host);
    if v4 != None {
      if !IsGlobalIpv4(v4.value) {
        return None;
      }
      return Some(Ipv4Host(Dotted(v4.value)));
    }
    if IsInternalName(host) {
      return None;
    }
    var isDomain := CheckLabels(host);
    return if isDomain then Some(DomainHost(host)) else None;
  }

  /** The label rules, one label at a time. */
  method CheckLabels(host: string) returns (ok: bool)
    ensures ok <==> IsDomainName(host)
  {
    var labels := Split(host, '.');
    if |labels| < 2 {
      return false;
    }
    for i := 0 to |labels|
      invariant forall j | 0 <= j < i :: IsLabel(labels[j])
    {
      var name := labels[i];
      assert name in labels;
      if name == "" || |name| > MAX_LABEL {
        return false;
      }
      if name[0] == '-' || name[|name| - 1] == '-' {
        return false;
      }
      if exists c | c in name :: !IsLabelChar(c) {
        return false;
      }
    }
    return IsTld(labels[|labels| - 1]);
  }

  // ------------------------------------------------------------------------- IPv4 spellings

  /** The dotted decimal text of a value spells that value, in at most fifteen characters. */
  lemma DottedIsSpelling(n: nat)
    requires n <= 0xffff_ffff
    ensures IsIpv4Spelling(Dotted(OctetsOf(n)), n) && |Dotted(OctetsOf(n))| <= 15
    ensures IsLower(Dotted(OctetsOf(n)))
  {
    var o := OctetsOf(n);
    var parts := [Digits(o.a, Decimal), Digits(o.b, Decimal), Digits(o.c, Decimal), Digits(o.d, Decimal)];
    EverySpellingIsRead(n, 4, parts);
    ByteText(o.a);
    ByteText(o.b);
    ByteText(o.c);
    ByteText(o.d);
    DottedText(parts);
  }

  lemma ByteText(v: nat)
    requires v < 256
    ensures |Digits(v, Decimal)| <= 3 && IsLower(Digits(v, Decimal))
  {
    DigitsAreDigits(v, Decimal);
    var tens := v / 10;
    assert |Digits(tens / 10, Decimal)| == 1;
    assert |Digits(tens, Decimal)| <= 2;
  }

  lemma DottedText(parts: seq<string>)
    requires |parts| == 4 && forall p | p in parts :: |p| <= 3 && IsLower(p)
    ensures |Join(parts, '.')| <= 15 && IsLower(Join(parts, '.'))
  {
    var s := Join(parts, '.');
    var s1, s2, s3 := parts[1..], parts[2..], parts[3..];
    assert parts[1..][1..] == s2 && parts[2..][1..] == s3;
    assert Join(s3, '.') == parts[3];
    assert Join(s2, '.') == parts[2] + ['.'] + parts[3];
    assert Join(s1, '.') == parts[1] + ['.'] + Join(s2, '.');
    assert s == parts[0] + ['.'] + Join(s1, '.');
    assert parts[0] in parts && parts[1] in parts && parts[2] in parts && parts[3] in parts;
    assert IsLower(Join(s2, '.')) && IsLower(Join(s1, '.'));
  }

  lemma SpellingIsNoIpv6(s: string, n: nat)
    requires IsIpv4Spelling(s, n)
    ensures ':' !in s && !LooksLikeIpv6(s)
  {
    SpellingCharacters(s, n);
    assert !NumeralChar(':') && !NumeralChar('[');
    assert s[0] in s;
  }

  /**
   * Every spelling of one IPv4 address, in any number of parts, notation, letter case and zero
   * padding that stays within the length limit, gets one verdict and one canonical text.
   */
  lemma SpellingsShareVerdict(raw: string, n: nat)
    requires IsIpv4Spelling(Trim(raw), n) && |Trim(raw)| <= MAX_HOST
    ensures SafeHost(raw) == if InAnyBlock4(n) then None else Some(Ipv4Host(Dotted(OctetsOf(n))))
  {
    var host := Lower(Trim(raw));
    SpellingIgnoresCase(Trim(raw), n);
    SpellingIsNoIpv6(host, n);
    SpellingIsTrimmed(host, n);
    TrimmedStays(host);
    ParsedIffSpelling(host, n);
    GlobalIffOutsideBlocks4(n);
  }

  lemma ParsedHasValue(s: string)
    requires ParseIpv4(s).Some?
    ensures exists n :: n <= 0xffff_ffff && ParseIpv4(s) == Some(OctetsOf(n)) && IsIpv4Spelling(Trim(s), n)
  {
    var n := ParsedValue(s, ParseIpv4(s).value);
  }

  // ------------------------------------------------------------------------- IPv6 literals

  predicate TidyChar(c: char) {
    (NumeralChar(c) && LowerChar(c) == c) || c == ':'
  }

  /** The characters of an accepted text; dots and white space only occur in a dotted tail. */
  predicate LiteralChar(c: char) {
    NumeralChar(c) || c == ':' || c == '.' || IsSpace(c)
  }

  lemma JoinIsTidy(parts: seq<string>, groups: seq<nat>)
    requires SpellsGroups(parts, groups)
    ensures forall c | c in Join(parts, ':') :: TidyChar(c)
  {
    GroupsIffSpelling(parts, groups);
    forall c | c in Join(parts, ':')
      ensures TidyChar(c)
    {
      JoinCharacters(parts, ':', c);
      if c != ':' {
        var p :| p in parts && c in p;
        assert IsHexGroup(p);
      }
    }
  }

  lemma PlainIsTidy(s: string, g: seq<nat>)
    requires ExpandPlain(s) == Some(g)
    ensures ':' in s && forall c | c in s :: TidyChar(c)
  {
    ExpandedIsPlain(s, g);
    if parts :| IsPlainFull(s, g, parts) {
      JoinIsTidy(parts, g);
      assert s == parts[0] + [':'] + Join(parts[1..], ':');
    } else {
      var head, rest :| IsPlainShort(s, g, head, rest);
      JoinIsTidy(head, g[..|head|]);
      JoinIsTidy(rest, g[8 - |rest|..]);
      assert s[|Join(head, ':')|] == ':';
    }
  }

  lemma TailCharacters(tail: string)
    requires ParseIpv4(tail).Some?
    ensures forall c | c in tail :: LiteralChar(c)
  {
    var n := ParsedValue(tail, ParseIpv4(tail).value);
    SpellingCharacters(Trim(tail), n);
    forall c | c in tail
      ensures LiteralChar(c)
    {
      TrimKeeps(tail, c);
    }
  }

  /** With its dotted tail set apart. */
  lemma DottedCharacters(lead: string, tail: string, g: seq<nat>)
    requires lead != "" && lead[|lead| - 1] == ':' && ParseIpv4(tail).Some?
    requires ExpandPlain(lead + TwoGroups(ParseIpv4(tail).value)) == Some(g)
    ensures forall c | c in lead :: TidyChar(c)
    ensures forall c | c in tail :: LiteralChar(c)
  {
    var plain := lead + TwoGroups(ParseIpv4(tail).value);
    PlainIsTidy(plain, g);
    forall c | c in lead
      ensures TidyChar(c)
    {
      assert c in plain;
    }
    TailCharacters(tail);
  }

  /** An accepted text has a colon, no bracket, and no leading white space; without a dot it is tidy. */
  lemma BareCharacters(v: string, g: seq<nat>)
    requires ExpandBare(v) == Some(g)
    ensures ':' in v && '[' !in v && ']' !in v && !IsSpace(v[0])
    ensures '.' !in v ==> forall c | c in v :: TidyChar(c)
  {
    var k := AfterLastColon(v);
    var lead, tail := v[..k], v[k..];
    assert v == lead + tail;
    if '.' in tail {
      DottedCharacters(lead, tail, g);
      DottedTextCharacters(lead, tail);
    } else {
      PlainIsTidy(v, g);
      NoBracketInLiteral(v);
      assert v[0] in v;
    }
  }

  lemma NoBracketInLiteral(v: string)
    requires forall c | c in v :: LiteralChar(c)
    ensures '[' !in v && ']' !in v
  {
    assert !LiteralChar('[') && !LiteralChar(']');
  }

  lemma DottedTextCharacters(lead: string, tail: string)
    requires lead != "" && lead[|lead| - 1] == ':' && '.' in tail
    requires (forall c | c in lead :: TidyChar(c)) && forall c | c in tail :: LiteralChar(c)
    ensures var v := lead + tail; ':' in v && '.' in v && '[' !in v && ']' !in v && !IsSpace(v[0])
  {
    var v := lead + tail;
    NoBracketInLiteral(v);
    assert v[|lead| - 1] == ':';
    assert v[0] == lead[0] && lead[0] in lead;
  }

  lemma StripIsUnbracket(host: string)
    requires '[' !in Unbracket(host) && ']' !in Unbracket(host)
    ensures StripBrackets(host) == Unbracket(host)
  {
    if Unbracket(host) == host {
      assert host != "" ==> host[0] in host && host[|host| - 1] in host;
    } else {
      assert host[1..][..|host| - 2] == Unbracket(host);
    }
  }

  /** What an accepted IPv6 literal leaves, its brackets gone, is what was expanded. */
  lemma StrippedIsExpanded(host: string, g: seq<nat>)
    requires IsTrimmed(host) && IsLower(host) && Expand(host) == Some(g)
    ensures ExpandBare(StripBrackets(host)) == Some(g) && IsLower(StripBrackets(host))
  {
    TrimmedStays(host);
    LowerStays(host);
    BareCharacters(Unbracket(host), g);
    StripIsUnbracket(host);
  }

  lemma ColonIsNoName(host: string)
    requires ':' in host
    ensures ParseIpv4(host) == None && !IsDomainName(host)
  {
    if ParseIpv4(host).Some? {
      ParsedHasValue(host);
      var n :| IsIpv4Spelling(Trim(host), n);
      SpellingIsNoIpv6(Trim(host), n);
      TrimKeeps(host, ':');
      assert false;
    }
    JoinOfSplit(host, '.');
    JoinCharacters(Split(host, '.'), '.', ':');
    assert !IsLabelChar(':');
  }

  // ------------------------------------------------------------------------- idempotence

  lemma DottedTextIsRefused(v: string)
    requires ':' in v && '.' in v && '[' !in v
    ensures SafeHost(v) == None
  {
    var again := Lower(Trim(v));
    KeptCharacter(v, '.');
    KeptCharacter(v, ':');
    NoBracketKept(v);
    assert again[0] in again;
    ColonIsNoName(again);
  }

  lemma UndottedTextIsAccepted(v: string, g: seq<nat>)
    requires ExpandBare(v) == Some(g) && '.' !in v && |v| <= MAX_HOST && IsGlobalIpv6(g)
    ensures SafeHost(v) == Some(Ipv6Host(v))
  {
    BareCharacters(v, g);
    TidyTextStays(v);
    Ipv6Verdict(v, g);
  }

  lemma TidyTextStays(v: string)
    requires v != "" && forall c | c in v :: TidyChar(c)
    ensures Lower(Trim(v)) == v && Trim(v) == v && StripBrackets(v) == v
  {
    assert v[0] in v && v[|v| - 1] in v;
    assert !TidyChar('[') && !TidyChar(']');
    TrimmedStays(v);
    assert forall i | 0 <= i < |v| :: v[i] in v;
    LowerStays(v);
  }

  lemma Ipv6Verdict(host: string, g: seq<nat>)
    requires LooksLikeIpv6(host) && |host| <= MAX_HOST && Expand(host) == Some(g) && IsGlobalIpv6(g)
    ensures Verdict(host) == Some(Ipv6Host(StripBrackets(host)))
  {
  }

  lemma KeptCharacter(s: string, c: char)
    requires c in s && !IsSpace(c) && LowerChar(c) == c
    ensures c in Lower(Trim(s))
  {
    TrimKeeps(s, c);
    var i :| 0 <= i < |Trim(s)| && Trim(s)[i] == c;
    assert Lower(Trim(s))[i] == c;
  }

  lemma NoBracketKept(s: string)
    requires '[' !in s
    ensures '[' !in Lower(Trim(s))
  {
    TrimKeeps(s, '[');
    var t := Trim(s);
    forall i | 0 <= i < |t|
      ensures LowerChar(t[i]) != '['
    {
      assert t[i] in t;
    }
  }

  /**
   * Filtering an accepted host again accepts it unchanged, except exactly the IPv6 literals whose
   * text has a dot: without its brackets such a text is taken for a name, and refused.
   */
  lemma FilteringTwice(raw: string)
    requires SafeHost(raw).Some?
    ensures var h := SafeHost(raw).value;
            SafeHost(h.value) == if h.Ipv6Host? && '.' in h.value then None else Some(h)
  {
    var host, h := Lower(Trim(raw)), SafeHost(raw).value;
    LowerOfTrimmed(raw);
    if LooksLikeIpv6(host) {
      var g := Expand(host).value;
      StrippedIsExpanded(host, g);
      BareCharacters(h.value, g);
      if '.' in h.value {
        DottedTextIsRefused(h.value);
      } else {
        UndottedTextIsAccepted(h.value, g);
      }
    } else if ParseIpv4(host).Some? {
      ParsedHasValue(host);
      var n :| n <= 0xffff_ffff && ParseIpv4(host) == Some(OctetsOf(n)) && IsIpv4Spelling(Trim(host), n);
      GlobalIffOutsideBlocks4(n);
      DottedIsSpelling(n);
      SpellingIsTrimmed(h.value, n);
      TrimmedStays(h.value);
      SpellingsShareVerdict(h.value, n);
    } else {
      TrimmedStays(host);
      LowerStays(host);
    }
  }

  /** The text of the IPv4-mapped address of n. */
  function MappedText(n: nat): string {
    "::ffff:" + Dotted(OctetsOf(n))
  }

  function MappedAddress(n: nat): seq<nat> {
    [0, 0, 0, 0, 0, 0xffff, n / 0x1_0000, n % 0x1_0000]
  }

  /** The exception occurs: every global mapped address in brackets is accepted, and refused when filtered again. */
  lemma MappedLiteralIsRefusedAgain(n: nat)
    requires n <= 0xffff_ffff && !InAnyBlock4(n)
    ensures SafeHost("[" + MappedText(n) + "]") == Some(Ipv6Host(MappedText(n)))
    ensures SafeHost(MappedText(n)) == None
  {
    MappedTextIsPrinting(n);
    MappedTextIsTidy(n);
    MappedIsGlobal(n);
    PrintingIsReadBack(MappedText(n), MappedAddress(n));
    BracketedHost(MappedText(n));
    Ipv6Verdict("[" + MappedText(n) + "]", MappedAddress(n));
    DottedTextIsRefused(MappedText(n));
  }

  lemma BracketedHost(s: string)
    requires IsLower(s)
    ensures var raw := "[" + s + "]";
            Lower(Trim(raw)) == raw && LooksLikeIpv6(raw) && StripBrackets(raw) == s
  {
    var raw := "[" + s + "]";
    TrimmedStays(raw);
    LowerStays(raw);
    assert raw[1..] == s + "]";
  }

  lemma MappedTextIsTidy(n: nat)
    requires n <= 0xffff_ffff
    ensures var s := MappedText(n);
            IsTrimmed(s) && IsLower(s) && s[0] == ':' && '.' in s && '[' !in s && ':' in s && |s| <= 22
  {
    var d := Dotted(OctetsOf(n));
    DottedIsSpelling(n);
    SpellingIsTrimmed(d, n);
    SpellingCharacters(d, n);
    assert !NumeralChar('[');
  }

  lemma MappedIsGlobal(n: nat)
    requires n <= 0xffff_ffff && !InAnyBlock4(n)
    ensures IsGlobalIpv6(MappedAddress(n))
  {
    var g := MappedAddress(n);
    UniqueLocalMask(0);
    LinkLocalMask(0);
    assert g[5] != 0 && g[..7][5] != 0;
    MappedVerdict(g[6], g[7]);
  }

  lemma MappedTextIsPrinting(n: nat)
    requires n <= 0xffff_ffff
    ensures IsPrinting(MappedText(n), MappedAddress(n))
  {
    var tail := Dotted(OctetsOf(n));
    MappedTail(n);
    RadixOfFs();
    GroupIffSpelling("ffff", 0xffff);
    JoinMapped(tail);
    ShortMapped(MappedText(n), MappedAddress(n), tail);
  }

  lemma JoinMapped(tail: string)
    ensures "::ffff:" + tail == Join([], ':') + "::" + Join(["ffff", tail], ':')
  {
    JoinWithLast(["ffff"], tail);
    assert ["ffff"] + [tail] == ["ffff", tail];
  }

  lemma RadixOfFs()
    ensures Radix("ffff", Hex) == 0xffff
  {
    RadixStep("fff", 'f', Hex);
    RadixStep("ff", 'f', Hex);
    RadixStep("f", 'f', Hex);
    RadixStep("", 'f', Hex);
    assert "fff" + ['f'] == "ffff" && "ff" + ['f'] == "fff" && "f" + ['f'] == "ff" && "" + ['f'] == "f";
  }

  lemma ShortMapped(s: string, g: seq<nat>, tail: string)
    requires |g| == 8 && (forall i | 0 <= i < 5 :: g[i] == 0) && IsGroupSpelling("ffff", g[5])
    requires IsDottedTail(tail, g[6], g[7]) && s == Join([], ':') + "::" + Join(["ffff", tail], ':')
    ensures IsPrinting(s, g)
  {
    var rest, groups := ["ffff", tail], g[5..];
    assert rest[..1] == ["ffff"] && groups[..1] == [g[5]];
    assert SpellsGroups([], g[..0]);
    assert SpellsWithTail(rest, groups);
    assert IsShortForm(s, g, [], rest, 3);
  }

  lemma MappedTail(n: nat)
    requires n <= 0xffff_ffff
    ensures IsDottedTail(Dotted(OctetsOf(n)), n / 0x1_0000, n % 0x1_0000)
  {
    var d := Dotted(OctetsOf(n));
    DottedIsSpelling(n);
    SpellingIsTrimmed(d, n);
    TrimmedStays(d);
    SpellingIsNoIpv6(d, n);
  }

  // ------------------------------------------------------------------------- safety

  /** A host text that denotes an address of a blocked block in some spelling. */
  ghost predicate DenotesBlocked(s: string) {
    || (exists n :: IsIpv4Spelling(Trim(s), n) && InAnyBlock4(n))
    || (Expand(s).Some? && !IsGlobalIpv6(Expand(s).value))
  }

  lemma UniqueSpelling(s: string, n: nat, m: nat)
    requires IsIpv4Spelling(Trim(s), n) && IsIpv4Spelling(Trim(s), m)
    ensures n == m
  {
    ParsedIffSpelling(s, n);
    ParsedIffSpelling(s, m);
    OctetsReadBack(n);
    OctetsReadBack(m);
  }

  lemma NoColonNoIpv6(s: string)
    requires ':' !in s
    ensures Expand(s) == None
  {
    TrimKeeps(s, ':');
    NoColonLowered(Trim(s));
    var t := Lower(Trim(s));
    assert ':' !in Unbracket(t);
    assert ExpandBare(Unbracket(t)) == None;
  }

  lemma NoColonLowered(s: string)
    requires ':' !in s
    ensures ':' !in Lower(s)
  {
    forall i | 0 <= i < |s|
      ensures Lower(s)[i] != ':'
    {
      assert s[i] in s;
    }
  }

  ghost predicate EndsIn(name: string, suffix: string) {
    exists k :: 0 <= k <= |name| && name[k..] == suffix
  }

  /** The names kept for internal use. */
  ghost predicate ReservedName(name: string) {
    || name == "localhost" || name == "metadata.google.internal"
    || EndsIn(name, ".local") || EndsIn(name, ".internal") || EndsIn(name, ".localhost") || EndsIn(name, ".home.arpa")
  }

  lemma EndsInIff(name: string, suffix: string)
    ensures EndsWith(name, suffix) <==> EndsIn(name, suffix)
  {
    if EndsWith(name, suffix) {
      assert name[|name| - |suffix|..] == suffix;
    }
  }

  lemma ReservedIff(name: string)
    ensures IsInternalName(name) <==> ReservedName(name)
  {
    EndsInIff(name, ".local");
    EndsInIff(name, ".internal");
    EndsInIff(name, ".localhost");
    EndsInIff(name, ".home.arpa");
    assert INTERNAL_SUFFIXES[0] == ".local" && INTERNAL_SUFFIXES[1] == ".internal"
           && INTERNAL_SUFFIXES[2] == ".localhost" && INTERNAL_SUFFIXES[3] == ".home.arpa";
    assert INTERNAL_NAMES[0] == "localhost" && INTERNAL_NAMES[1] == "metadata.google.internal";
  }

  /** Whatever text the filter returns, no reading of it denotes a blocked address, and no name is an internal one. */
  lemma FilteredIsNeverBlocked(raw: string)
    requires SafeHost(raw).Some?
    ensures !DenotesBlocked(SafeHost(raw).value.value)
    ensures SafeHost(raw).value.DomainHost? ==> !ReservedName(SafeHost(raw).value.value)
  {
    var host, h := Lower(Trim(raw)), SafeHost(raw).value;
    LowerOfTrimmed(raw);
    if LooksLikeIpv6(host) {
      var g := Expand(host).value;
      StrippedIsExpanded(host, g);
      Ipv6TextIsNotBlocked(h.value, g);
    } else if ParseIpv4(host).Some? {
      ParsedHasValue(host);
      var n :| n <= 0xffff_ffff && ParseIpv4(host) == Some(OctetsOf(n)) && IsIpv4Spelling(Trim(host), n);
      GlobalIffOutsideBlocks4(n);
      Ipv4TextIsNotBlocked(h.value, n);
    } else {
      DomainTextIsNotBlocked(host);
      ReservedIff(host);
    }
  }

  lemma Ipv4TextIsNotBlocked(v: string, n: nat)
    requires n <= 0xffff_ffff && v == Dotted(OctetsOf(n)) && !InAnyBlock4(n)
    ensures !DenotesBlocked(v)
  {
    DottedIsSpelling(n);
    SpellingIsTrimmed(v, n);
    TrimmedStays(v);
    SpellingIsNoIpv6(v, n);
    NoColonNoIpv6(v);
    forall m | IsIpv4Spelling(Trim(v), m)
      ensures m == n
    {
      UniqueSpelling(v, n, m);
    }
  }

  lemma DomainTextIsNotBlocked(v: string)
    requires ParseIpv4(v) == None && IsDomainName(v)
    ensures !DenotesBlocked(v)
  {
    forall m
      ensures !IsIpv4Spelling(Trim(v), m)
    {
      ParsedIffSpelling(v, m);
    }
    assert ':' !in v by {
      if ':' in v {
        ColonIsNoName(v);
      }
    }
    NoColonNoIpv6(v);
  }

  lemma Ipv6TextIsNotBlocked(v: string, g: seq<nat>)
    requires ExpandBare(v) == Some(g) && IsLower(v) && IsGlobalIpv6(g)
    ensures !DenotesBlocked(v)
  {
    BareCharacters(v, g);
    forall m
      ensures !IsIpv4Spelling(Trim(v), m)
    {
      ColonIsNoName(v);
      ParsedIffSpelling(v, m);
    }
    SameGroupsAgain(v, g);
  }

  function TrimEnd(s: string): string {
    if s != "" && IsSpace(s[|s| - 1]) then TrimEnd(s[..|s| - 1]) else s
  }

  lemma {:induction false} TrimDropsLast(s: string)
    requires s != "" && IsSpace(s[|s| - 1])
    ensures Trim(s[..|s| - 1]) == Trim(s)
  {
    if |s| > 1 && IsSpace(s[0]) {
      TrimDropsLast(s[1..]);
      assert s[1..][..|s| - 2] == s[..|s| - 1][1..];
    }
  }

  lemma {:induction false} TrimAfterTrimEnd(s: string)
    ensures Trim(TrimEnd(s)) == Trim(s)
    ensures forall c | c in TrimEnd(s) :: c in s
    ensures forall c | c in s && !IsSpace(c) :: c in TrimEnd(s)
  {
    if s != "" && IsSpace(s[|s| - 1]) {
      TrimDropsLast(s);
      TrimAfterTrimEnd(s[..|s| - 1]);
      assert s == s[..|s| - 1] + [s[|s| - 1]];
    }
  }

  lemma {:induction false} TrimBehind(lead: string, tail: string)
    requires lead != "" && !IsSpace(lead[0]) && !IsSpace(lead[|lead| - 1])
    ensures Trim(lead + tail) == lead + TrimEnd(tail)
  {
    var s := lead + tail;
    if tail != "" && IsSpace(tail[|tail| - 1]) {
      TrimBehind(lead, tail[..|tail| - 1]);
      assert s[..|s| - 1] == lead + tail[..|tail| - 1];
    }
  }

  /** Trimming can only shorten a dotted tail, whose address is read trimmed anyway. */
  lemma TrimmedTextExpands(v: string, g: seq<nat>)
    requires ExpandBare(v) == Some(g)
    ensures ExpandBare(Trim(v)) == Some(g)
  {
    BareCharacters(v, g);
    var k := AfterLastColon(v);
    var lead, tail := v[..k], v[k..];
    assert v == lead + tail;
    if '.' in tail {
      TrimBehind(lead, tail);
      TrimmedTailExpands(lead, tail, g);
    } else {
      PlainStays(v, g);
    }
  }

  lemma PlainStays(v: string, g: seq<nat>)
    requires ExpandPlain(v) == Some(g)
    ensures Trim(v) == v
  {
    PlainIsTidy(v, g);
    assert v[0] in v && v[|v| - 1] in v;
    TrimmedStays(v);
  }

  lemma TrimmedTailExpands(lead: string, tail: string, g: seq<nat>)
    requires lead != "" && lead[|lead| - 1] == ':' && ':' !in tail && '.' in tail
    requires ExpandBare(lead + tail) == Some(g)
    ensures ExpandBare(lead + TrimEnd(tail)) == Some(g)
  {
    var end := TrimEnd(tail);
    TrimAfterTrimEnd(tail);
    LastColonIsThere(lead, tail);
    LastColonIsThere(lead, end);
    assert (lead + tail)[|lead|..] == tail && (lead + end)[|lead|..] == end;
    assert (lead + tail)[..|lead|] == (lead + end)[..|lead|] == lead;
    assert Undotted(lead + end) == Undotted(lead + tail);
    assert (lead + end)[|lead| - 1] == ':';
  }

  /** The stripped text still denotes the groups that were checked. */
  lemma SameGroupsAgain(v: string, g: seq<nat>)
    requires ExpandBare(v) == Some(g) && IsLower(v)
    ensures Expand(v) == Some(g)
  {
    var t := Trim(v);
    TrimmedTextExpands(v, g);
    BareCharacters(t, g);
    TrimKeepsLower(v);
    LowerStays(t);
    assert t[0] in t;
  }

  lemma {:induction false} TrimKeepsLower(s: string)
    requires IsLower(s)
    ensures IsLower(Trim(s))
  {
    if s == "" {
    } else if IsSpace(s[0]) {
      TrimKeepsLower(s[1..]);
    } else if IsSpace(s[|s| - 1]) {
      TrimKeepsLower(s[..|s| - 1]);
    }
  }
}
