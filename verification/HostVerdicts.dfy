/** Exactly which hosts the filter accepts, kind by kind (src/services/ssrf.ts). */
module HostVerdicts {
  import opened Base
  import opened Text
  import opened Numerals
  import opened Ipv4
  import opened Ipv6
  import opened HostFilter

  /** The text that is judged: without white space around it, in lower case. */
  function Tidied(raw: string): string {
    Lower(Trim(raw))
  }

  // ------------------------------------------------------------------------- names

  /** Letters, digits and inner hyphens, at most sixty-three of them. */
  ghost predicate LabelText(l: string) {
    && 1 <= |l| <= 63 && l[0] != '-' && l[|l| - 1] != '-'
    && forall c | c in l :: 'a' <= c <= 'z' || '0' <= c <= '9' || c == '-'
  }

  /** Labels joined by dots, the last of two or more letters. */
  ghost predicate LabelsSpell(name: string, labels: seq<string>) {
    && |labels| >= 2 && name == Join(labels, '.') && (forall l | l in labels :: LabelText(l))
    && LettersOnly(labels[|labels| - 1])
  }

  ghost predicate LettersOnly(l: string) {
    |l| >= 2 && forall c | c in l :: 'a' <= c <= 'z'
  }

  lemma LabelIff(l: string)
    ensures IsLabel(l) <==> LabelText(l)
  {
  }

  lemma NameIff(name: string)
    ensures IsDomainName(name) <==> exists labels :: LabelsSpell(name, labels)
  {
    if IsDomainName(name) {
      var labels := Split(name, '.');
      JoinOfSplit(name, '.');
      assert LabelsSpell(name, labels);
    }
    if labels :| LabelsSpell(name, labels) {
      forall l | l in labels ensures '.' !in l && IsLabel(l) {
        LabelIff(l);
      }
      SplitOfJoin(labels, '.');
    }
  }

  lemma NameIsNoLiteral(name: string)
    requires IsDomainName(name)
    ensures name != "" && !LooksLikeIpv6(name)
  {
    if ':' in name {
      ColonIsNoName(name);
    }
    var labels := Split(name, '.');
    JoinOfSplit(name, '.');
    assert IsLabel(labels[0]) && name[0] == labels[0][0];
    assert labels[0][0] in labels[0];
  }

  lemma NoReadingIff(s: string)
    ensures ParseIpv4(s) == None <==> forall n :: !IsIpv4Spelling(Trim(s), n)
  {
    if ParseIpv4(s).Some? {
      ParsedHasValue(s);
    }
    if n :| IsIpv4Spelling(Trim(s), n) {
      ParsedIffSpelling(s, n);
    }
  }

  /**
   Accepted names: labels joined by dots that are no internal name and no spelling of an IPv4 address, of at most
   253 characters; all of them, and nothing else.
   */
  lemma NameIsAcceptedIff(raw: string, name: string)
    ensures SafeHost(raw) == Some(DomainHost(name)) <==>
              && name == Tidied(raw) && |name| <= 253 && (exists labels :: LabelsSpell(name, labels))
              && (forall n :: !IsIpv4Spelling(name, n)) && !ReservedName(name)
  {
    var host := Tidied(raw);
    LowerOfTrimmed(raw);
    TrimmedStays(host);
    NameIff(host);
    NoReadingIff(host);
    ReservedIff(host);
    if IsDomainName(host) {
      NameIsNoLiteral(host);
    }
  }

  // ------------------------------------------------------------------------- addresses

  /** Accepted IPv4 hosts: any spelling of an address outside the blocks, answered in dotted decimal. */
  lemma Ipv4IsAcceptedIff(raw: string, text: string)
    ensures SafeHost(raw) == Some(Ipv4Host(text)) <==>
              exists n :: IsIpv4Spelling(Tidied(raw), n) && !InAnyBlock4(n) && |Tidied(raw)| <= 253
                          && text == Dotted(OctetsOf(n))
  {
    var host := Tidied(raw);
    LowerOfTrimmed(raw);
    TrimmedStays(host);
    LowerStays(host);
    if n :| IsIpv4Spelling(host, n) && |host| <= 253 {
      SpellingsShareVerdict(host, n);
      forall m | IsIpv4Spelling(host, m) ensures m == n {
        UniqueSpelling(host, n, m);
      }
    }
    if ParseIpv4(host).Some? {
      ParsedHasValue(host);
    }
  }

  /** The canonical text is the four octets in decimal, and denotes the address. */
  lemma DottedSpellsOctets(n: nat)
    requires n <= 0xffff_ffff
    ensures IsIpv4Spelling(Dotted(OctetsOf(n)), n)
    ensures Split(Dotted(OctetsOf(n)), '.')
         == [Digits(n / 0x100_0000, Decimal), Digits(n / 0x1_0000 % 0x100, Decimal),
             Digits(n / 0x100 % 0x100, Decimal), Digits(n % 0x100, Decimal)]
  {
    DottedIsSpelling(n);
    var o := OctetsOf(n);
    NoDotInDecimal(o.a);
    NoDotInDecimal(o.b);
    NoDotInDecimal(o.c);
    NoDotInDecimal(o.d);
    SplitOfJoin([Digits(o.a, Decimal), Digits(o.b, Decimal), Digits(o.c, Decimal), Digits(o.d, Decimal)], '.');
  }

  lemma NoDotInDecimal(n: nat)
    ensures '.' !in Digits(n, Decimal)
  {
    DigitsAreDigits(n, Decimal);
    forall c | c in Digits(n, Decimal) ensures c != '.' {
      var i :| 0 <= i < |Digits(n, Decimal)| && Digits(n, Decimal)[i] == c;
      assert DigitValue(c) < 10;
    }
  }

  /** A literal in brackets, or a text with a colon and without a dot. */
  ghost predicate ReadAsLiteral(host: string) {
    (host != "" && host[0] == '[') || (':' in host && '.' !in host)
  }

  /** The address is none of the blocked ones: not ::, ::1, in fc00::/7 or fe80::/10, or mapped from a blocked IPv4 one. */
  ghost predicate OutsideBlocks6(g: seq<nat>)
    requires IsAddress(g)
  {
    var v := AddressValue(g);
    && !InBlock6(v, UNSPECIFIED) && !InBlock6(v, LOOPBACK)
    && !InBlock6(v, UNIQUE_LOCAL) && !InBlock6(v, LINK_LOCAL)
    && (InBlock6(v, MAPPED) ==> !InAnyBlock4(v - MAPPED.first))
  }

  lemma GlobalIffOutside(g: seq<nat>)
    requires IsAddress(g)
    ensures IsGlobalIpv6(g) <==> OutsideBlocks6(g)
  {
    GlobalIffOutsideBlocks6(g);
  }

  lemma TidiedStays(host: string)
    requires IsTrimmed(host) && IsLower(host)
    ensures Tidied(host) == host
  {
    TrimmedStays(host);
    LowerStays(host);
  }

  lemma GroupsAreAddress(host: string, g: seq<nat>)
    requires Expand(host) == Some(g)
    ensures IsAddress(g)
  {
    ExpandedIsEightGroups(host);
    forall i | 0 <= i < 8 ensures g[i] < 0x1_0000 {
      assert g[i] in g;
    }
  }

  /** A tidied host expands to the groups it is a printing of. */
  lemma ExpansionPrints(host: string, g: seq<nat>)
    requires IsTrimmed(host) && IsLower(host)
    ensures Expand(host) == Some(g) <==> IsPrinting(Unbracket(host), g)
  {
    TidiedStays(host);
    ExpandedIffPrinting(host, g);
  }

  lemma StrippedText(host: string, g: seq<nat>)
    requires IsTrimmed(host) && IsLower(host) && Expand(host) == Some(g)
    ensures StripBrackets(host) == Unbracket(host)
  {
    TidiedStays(host);
    BareCharacters(Unbracket(host), g);
    StripIsUnbracket(host);
  }

  /** Accepted IPv6 hosts: any printing of an address outside the blocks, answered without its brackets. */
  lemma Ipv6IsAcceptedIff(raw: string, text: string)
    ensures SafeHost(raw) == Some(Ipv6Host(text)) <==>
              && ReadAsLiteral(Tidied(raw)) && |Tidied(raw)| <= 253 && text == Unbracket(Tidied(raw))
              && exists g :: IsPrinting(text, g) && IsAddress(g) && OutsideBlocks6(g)
  {
    var host := Tidied(raw);
    LowerOfTrimmed(raw);
    if SafeHost(raw) == Some(Ipv6Host(text)) {
      var g := Expand(host).value;
      GroupsAreAddress(host, g);
      ExpansionPrints(host, g);
      StrippedText(host, g);
      GlobalIffOutside(g);
    }
    if g :| ReadAsLiteral(host) && |host| <= 253 && text == Unbracket(host)
            && IsPrinting(text, g) && IsAddress(g) && OutsideBlocks6(g) {
      ExpansionPrints(host, g);
      StrippedText(host, g);
      GlobalIffOutside(g);
      Ipv6Verdict(host, g);
    }
  }
}
