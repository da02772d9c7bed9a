/**
 Pod and claim names (xstateful_set_utils.go).

 A pod of set "web" with ordinal 3 is called "web-3"; the controller recovers set name and ordinal from a pod's name
 with the regular expression (.*)-([0-9]+)$ and a 32-bit integer parse.
 */
module Names {

  const MAX_ORDINAL: nat := 0x7fff_ffff

  predicate IsDigit(c: char) { '0' <= c <= '9' }

  predicate AllDigits(s: string) { forall i :: 0 <= i < |s| ==> IsDigit(s[i]) }

  predicate NoNewline(s: string) { forall i :: 0 <= i < |s| ==> s[i] != '\n' }

  function DigitChar(d: nat): (c: char)
    requires d < 10
    ensures IsDigit(c) && DigitValue(c) == d
  {
    (d + '0' as int) as char
  }

  function DigitValue(c: char): nat
    requires IsDigit(c)
  {
    c as int - '0' as int
  }

  function ParseDigits(s: string): nat
    requires AllDigits(s)
  {
    if s == [] then 0 else 10 * ParseDigits(s[..|s| - 1]) + DigitValue(s[|s| - 1])
  }

  function FormatNat(n: nat): (s: string)
    ensures s != [] && AllDigits(s) && ParseDigits(s) == n
    ensures |s| > 1 ==> s[0] != '0'
  {
    if n < 10 then
      assert ParseDigits([DigitChar(n)][..0]) == 0;
      [DigitChar(n)]
    else
      var front := FormatNat(n / 10);
      assert (front + [DigitChar(n % 10)])[..|front|] == front;
      front + [DigitChar(n % 10)]
  }

  /** The %d verb of fmt.Sprintf. */
  function Format(n: int): string {
    if n < 0 then "-" + FormatNat(-n) else FormatNat(n)
  }

  /** Formatting undoes parsing exactly for the digit strings without superfluous leading zeros. */
  lemma {:induction false} FormatParse(s: string)
    requires s != [] && AllDigits(s)
    ensures FormatNat(ParseDigits(s)) == s <==> |s| == 1 || s[0] != '0'
  {
    if |s| == 1 {
      assert s == [DigitChar(DigitValue(s[0]))];
      assert ParseDigits(s) == DigitValue(s[0]);
    } else if s[0] != '0' {
      var front, d := s[..|s| - 1], DigitValue(s[|s| - 1]);
      FormatParse(front);
      PositiveWithoutZero(front);
      FormatLonger(ParseDigits(front), d);
      assert s == front + [DigitChar(d)];
    }
  }

  lemma FormatLonger(n: nat, d: nat)
    requires n > 0 && d < 10
    ensures FormatNat(10 * n + d) == FormatNat(n) + [DigitChar(d)]
  {
    assert (10 * n + d) / 10 == n;
    assert (10 * n + d) % 10 == d;
  }

  lemma {:induction false} PositiveWithoutZero(s: string)
    requires s != [] && AllDigits(s) && s[0] != '0'
    ensures ParseDigits(s) > 0
  {
    if |s| > 1 {
      PositiveWithoutZero(s[..|s| - 1]);
    }
  }

  /** Where the maximal run of digits at the end of s begins. */
  function SuffixStart(s: string): (p: nat)
    ensures p <= |s| && AllDigits(s[p..])
    ensures p > 0 ==> !IsDigit(s[p - 1])
  {
    if s == [] || !IsDigit(s[|s| - 1]) then |s|
    else
      var p := SuffixStart(s[..|s| - 1]);
      assert s[p..] == s[..|s| - 1][p..] + [s[|s| - 1]];
      p
  }

  /** Where the line that ends just before position h begins. */
  function LineStart(s: string, h: nat): (a: nat)
    requires h <= |s|
    ensures a <= h && NoNewline(s[a..h])
    ensures a > 0 ==> s[a - 1] == '\n'
  {
    if h == 0 || s[h - 1] == '\n' then h
    else
      var a := LineStart(s, h - 1);
      assert s[a..h] == s[a..h - 1] + [s[h - 1]];
      a
  }

  /** A run of digits after a non-digit is exactly what SuffixStart splits off. */
  lemma {:induction false} SuffixStartAt(front: string, digits: string)
    requires AllDigits(digits) && front != [] && !IsDigit(front[|front| - 1])
    ensures SuffixStart(front + digits) == |front|
  {
    if digits == [] {
      assert front + digits == front;
    } else {
      var shorter := digits[..|digits| - 1];
      SuffixStartAt(front, shorter);
      assert (front + digits)[..|front + digits| - 1] == front + shorter;
    }
  }

  /** No newline-free stretch ending at h starts before LineStart(s, h). */
  lemma {:induction false} LineStartLeast(s: string, a: nat, h: nat)
    requires a <= h <= |s| && NoNewline(s[a..h])
    ensures LineStart(s, h) <= a
  {
    if a < h {
      assert s[a..h][h - 1 - a] == s[h - 1];
      assert s[a..h - 1] == s[a..h][..h - 1 - a];
      LineStartLeast(s, a, h - 1);
    }
  }

  datatype Parsed = NoMatch | Match(parent: string, digits: string)

  /** What statefulPodRegex captures in a name. */
  function Parse(name: string): Parsed {
    var p := SuffixStart(name);
    if 0 < p < |name| && name[p - 1] == '-' then
      Match(name[LineStart(name, p - 1)..p - 1], name[p..])
    else NoMatch
  }

  /** getParentNameAndOrdinal: no match gives ("", -1), and an ordinal outside int32 gives -1. */
  function ParentAndOrdinal(name: string): (string, int) {
    match Parse(name)
    case NoMatch => ("", -1)
    case Match(parent, digits) =>
      var n := if AllDigits(digits) then ParseDigits(digits) else 0;
      (parent, if n <= MAX_ORDINAL then n else -1)
  }

  function Ordinal(name: string): int { ParentAndOrdinal(name).1 }

  function Parent(name: string): string { ParentAndOrdinal(name).0 }

  /** getPodName. */
  function PodName(setName: string, ordinal: int): string {
    setName + "-" + Format(ordinal)
  }

  /** getPersistentVolumeClaimName. */
  function ClaimName(template: string, setName: string, ordinal: int): string {
    template + "-" + setName + "-" + Format(ordinal)
  }

  /**
   One way of matching (.*)-([0-9]+)$ against s: group 1 is s[a..h], the hyphen stands at h, group 2 is the rest.
   The dot does not match a newline.
   */
  ghost predicate RegexMatch(s: string, a: nat, h: nat) {
    && a <= h < |s| - 1
    && s[h] == '-'
    && NoNewline(s[a..h])
    && AllDigits(s[h + 1..])
  }

  /**
   Parse is the regular expression: it finds a match iff there is one, and the match it returns is the one a
   leftmost, greedy matcher selects.
   */
  lemma ParseIsRegex(s: string)
    ensures Parse(s).NoMatch? <==> forall a: nat, h: nat :: !RegexMatch(s, a, h)
    ensures Parse(s).Match? ==>
              exists a: nat, h: nat ::
                && RegexMatch(s, a, h)
                && Parse(s) == Match(s[a..h], s[h + 1..])
                && forall a': nat, h': nat :: RegexMatch(s, a', h') ==> a <= a' && (a' == a ==> h' <= h)
  {
    forall a: nat, h: nat | RegexMatch(s, a, h)
      ensures SuffixStart(s) == h + 1 && LineStart(s, h) <= a
    {
      assert s == s[..h + 1] + s[h + 1..];
      SuffixStartAt(s[..h + 1], s[h + 1..]);
      LineStartLeast(s, a, h);
    }
    if Parse(s).Match? {
      var h := SuffixStart(s) - 1;
      assert RegexMatch(s, LineStart(s, h), h);
    }
  }

  /** Printing and parsing: the ordinal always survives, the set name exactly when it contains no newline. */
  lemma ParsePrinted(setName: string, n: nat)
    ensures Parse(PodName(setName, n)).Match?
    ensures Parse(PodName(setName, n)).digits == FormatNat(n)
    ensures Ordinal(PodName(setName, n)) == if n <= 2_147_483_647 then n else -1
    ensures Parent(PodName(setName, n)) == setName <==> NoNewline(setName)
  {
    var s := PodName(setName, n);
    var h := |setName|;
    assert s == setName + "-" + FormatNat(n);
    SuffixStartAt(setName + "-", FormatNat(n));
    assert s[h] == '-' && s[h + 1..] == FormatNat(n) && s[..h] == setName;
    if NoNewline(setName) {
      assert s[0..h] == setName;
      LineStartLeast(s, 0, h);
    } else {
      assert s[LineStart(s, h)..h] != setName;
    }
  }

  /** Parsing and printing: a newline-free member name comes back exactly when its ordinal has no leading zero. */
  lemma PrintParsed(s: string)
    requires NoNewline(s) && Ordinal(s) >= 0
    ensures PodName(Parent(s), Ordinal(s)) == s <==>
            (var digits := Parse(s).digits; |digits| == 1 || digits[0] != '0')
  {
    var p := SuffixStart(s);
    var a := LineStart(s, p - 1);
    assert a == 0;
    var digits := Parse(s).digits;
    FormatParse(digits);
    assert s == s[..p - 1] + "-" + digits;
    var printed := PodName(Parent(s), Ordinal(s));
    assert printed == s[..p - 1] + "-" + FormatNat(ParseDigits(digits));
    assert printed[p..] == FormatNat(ParseDigits(digits)) && s[p..] == digits;
  }

  /** A pod's claims are called after the template and the pod. */
  lemma ClaimNameOfPod(template: string, setName: string, ordinal: int)
    ensures ClaimName(template, setName, ordinal) == template + "-" + PodName(setName, ordinal)
  {
    hide Format;
    assert template + "-" + (setName + "-" + Format(ordinal)) == (template + "-" + setName) + "-" + Format(ordinal);
  }

  /** For one set, claims of different templates or ordinals never share a name. */
  lemma ClaimNameInjective(setName: string, t1: string, n1: nat, t2: string, n2: nat)
    requires ClaimName(t1, setName, n1) == ClaimName(t2, setName, n2)
    ensures t1 == t2 && n1 == n2
  {
    var s := ClaimName(t1, setName, n1);
    var b1, b2 := t1 + "-" + setName, t2 + "-" + setName;
    assert s == PodName(b1, n1) && s == PodName(b2, n2);
    SamePodName(b1, n1, b2, n2);
    assert |t1| == |t2|;
    assert t1 == b1[..|t1|] == b2[..|t1|] == t2;
  }

  /** Pod names are injective in set name and ordinal together. */
  lemma SamePodName(set1: string, n1: nat, set2: string, n2: nat)
    requires PodName(set1, n1) == PodName(set2, n2)
    ensures set1 == set2 && n1 == n2
  {
    ParsePrinted(set1, n1);
    ParsePrinted(set2, n2);
    assert n1 == ParseDigits(FormatNat(n1)) == ParseDigits(FormatNat(n2)) == n2;
    var s := PodName(set1, n1);
    assert set1 == s[..|set1|] == s[..|set2|] == set2;
  }
}
