/**
 The string methods that the host filter and the settings are written with: trim, toLowerCase, split and
 join on one character. Joining undoes splitting for every text, and splitting undoes joining exactly for
 parts that do not hold the separator.
 */
module Text {

  /** White space and line terminators, as String.prototype.trim strips them. */
  predicate IsSpace(c: char) {
    var u := c as int;
    || 9 <= u <= 13 || u == 32 || u == 0xA0 || u == 0x1680 || 0x2000 <= u <= 0x200A
    || u in {0x2028, 0x2029, 0x202F, 0x205F, 0x3000, 0xFEFF}
  }

  function Trim(s: string): (t: string)
    ensures |t| <= |s|
    ensures t != "" ==> !IsSpace(t[0]) && !IsSpace(t[|t| - 1])
  {
    if s == "" then ""
    else if IsSpace(s[0]) then Trim(s[1..])
    else if IsSpace(s[|s| - 1]) then Trim(s[..|s| - 1])
    else s
  }

  predicate IsTrimmed(s: string) {
    s == "" || (!IsSpace(s[0]) && !IsSpace(s[|s| - 1]))
  }

  lemma TrimmedStays(s: string)
    requires IsTrimmed(s)
    ensures Trim(s) == s
  {
  }

  lemma {:induction false} TrimKeeps(s: string, c: char)
    ensures c in Trim(s) ==> c in s
    ensures c in s && !IsSpace(c) ==> c in Trim(s)
  {
    if s == "" {
    } else if IsSpace(s[0]) {
      TrimKeeps(s[1..], c);
    } else if IsSpace(s[|s| - 1]) {
      TrimKeeps(s[..|s| - 1], c);
      assert s == s[..|s| - 1] + [s[|s| - 1]];
    }
  }

  /**
   * Lower case of one character: the ASCII letters and the Kelvin sign, the one other character
   * whose lower case is a single ASCII letter.
   */
  function LowerChar(c: char): char {
    if 'A' <= c <= 'Z' then (c as int + 32) as char
    else if c as int == 0x212A then 'k'
    else c
  }

  function Lower(s: string): (t: string)
    ensures |t| == |s|
    ensures forall i | 0 <= i < |s| :: t[i] == LowerChar(s[i])
  {
    seq(|s|, i requires 0 <= i < |s| => LowerChar(s[i]))
  }

  predicate IsLower(s: string) {
    forall i | 0 <= i < |s| :: LowerChar(s[i]) == s[i]
  }

  lemma LowerStays(s: string)
    requires IsLower(s)
    ensures Lower(s) == s
  {
  }

  lemma LowerOfTrimmed(s: string)
    ensures IsTrimmed(Lower(Trim(s))) && IsLower(Lower(Trim(s)))
  {
    var t := Trim(s);
    assert forall c: char :: IsSpace(c) <==> IsSpace(LowerChar(c));
  }

  /** The pieces between the occurrences of one separator character. */
  function Split(s: string, c: char): (parts: seq<string>)
    ensures |parts| >= 1
  {
    if s == "" then [""]
    else
      var rest := Split(s[1..], c);
      if s[0] == c then [""] + rest else [[s[0]] + rest[0]] + rest[1..]
  }

  function Join(parts: seq<string>, c: char): string {
    if |parts| == 0 then ""
    else if |parts| == 1 then parts[0]
    else parts[0] + [c] + Join(parts[1..], c)
  }

  lemma {:induction false} JoinOfSplit(s: string, c: char)
    ensures Join(Split(s, c), c) == s
  {
    if s != "" {
      var rest := Split(s[1..], c);
      JoinOfSplit(s[1..], c);
      if s[0] == c {
        assert Split(s, c)[1..] == rest;
      } else {
        var parts := Split(s, c);
        assert parts[1..] == rest[1..];
        assert parts[0] == [s[0]] + rest[0];
        assert s == [s[0]] + Join(rest, c);
      }
    }
  }

  lemma {:induction false} SplitHasNoSeparator(s: string, c: char)
    ensures forall p | p in Split(s, c) :: c !in p
  {
    if s != "" {
      SplitHasNoSeparator(s[1..], c);
    }
  }

  lemma {:induction false} SplitOfPlain(s: string, c: char)
    requires c !in s
    ensures Split(s, c) == [s]
  {
    if s != "" {
      SplitOfPlain(s[1..], c);
      assert s == [s[0]] + s[1..];
    }
  }

  lemma {:induction false} SplitAtFirst(p: string, rest: string, c: char)
    requires c !in p
    ensures Split(p + [c] + rest, c) == [p] + Split(rest, c)
  {
    var s := p + [c] + rest;
    if p == "" {
      assert s[1..] == rest;
    } else {
      SplitAtFirst(p[1..], rest, c);
      assert s[1..] == p[1..] + [c] + rest;
      assert p == [p[0]] + p[1..];
    }
  }

  lemma {:induction false} SplitOfJoin(parts: seq<string>, c: char)
    requires |parts| >= 1 && forall p | p in parts :: c !in p
    ensures Split(Join(parts, c), c) == parts
  {
    if |parts| == 1 {
      SplitOfPlain(parts[0], c);
    } else {
      SplitOfJoin(parts[1..], c);
      SplitAtFirst(parts[0], Join(parts[1..], c), c);
      assert parts == [parts[0]] + parts[1..];
    }
  }

  /** Joining a list built from two non-empty lists puts one separator between their texts. */
  lemma {:induction false} JoinConcat(a: seq<string>, b: seq<string>, c: char)
    requires |a| >= 1 && |b| >= 1
    ensures Join(a + b, c) == Join(a, c) + [c] + Join(b, c)
  {
    if |a| == 1 {
      assert (a + b)[1..] == b;
    } else {
      JoinConcat(a[1..], b, c);
      assert (a + b)[1..] == a[1..] + b;
    }
  }

  /** Every character of a joined text is the separator or comes from a part. */
  lemma {:induction false} JoinCharacters(parts: seq<string>, c: char, x: char)
    requires x in Join(parts, c)
    ensures x == c || exists p | p in parts :: x in p
  {
    if |parts| > 1 && x !in parts[0] && x != c {
      JoinCharacters(parts[1..], c, x);
      var p :| p in parts[1..] && x in p;
      assert p in parts;
    } else if |parts| > 0 && x in parts[0] {
      assert parts[0] in parts;
    }
  }

  /** Every character of a part occurs in the joined text. */
  lemma {:induction false} PartCharacters(parts: seq<string>, c: char, p: string, x: char)
    requires p in parts && x in p
    ensures x in Join(parts, c)
  {
    if |parts| > 1 && p != parts[0] {
      assert p in parts[1..];
      PartCharacters(parts[1..], c, p, x);
    }
  }
}
