/** ASCII string primitives with the meaning of the Python built-ins the
    cleaner relies on: `str.lower`, `in`, `startswith`, `split`, `strip`,
    `str(n)` and `int(s)`. Characters outside ASCII are uncased, are not
    white space and are not digits. */
module Text {

  datatype Option<+T> = None | Some(value: T)

  predicate IsUpper(c: char) { 'A' <= c <= 'Z' }
  predicate IsLower(c: char) { 'a' <= c <= 'z' }
  predicate IsLetter(c: char) { IsUpper(c) || IsLower(c) }
  predicate IsDigit(c: char) { '0' <= c <= '9' }

  /** Python's `str.isspace` on ASCII: space, TAB..CR and the four separators 0x1C..0x1F. */
  predicate IsSpace(c: char) {
    c == ' ' || 9 <= c as int <= 13 || 28 <= c as int <= 31
  }

  function LowerChar(c: char): char {
    if IsUpper(c) then (c as int + 32) as char else c
  }

  function UpperChar(c: char): char {
    if IsLower(c) then (c as int - 32) as char else c
  }

  predicate IsLowerCase(s: string) {
    forall i :: 0 <= i < |s| ==> !IsUpper(s[i])
  }

  /** `s.lower()`: every upper-case letter is mapped to its lower-case form. */
  function Lower(s: string): (r: string)
    ensures |r| == |s|
    ensures IsLowerCase(r)
    ensures forall i :: 0 <= i < |s| ==> LowerChar(s[i]) == r[i]
    ensures forall i :: 0 <= i < |s| && !IsUpper(s[i]) ==> r[i] == s[i]
    ensures IsLowerCase(s) <==> r == s
  {
    seq(|s|, i requires 0 <= i < |s| => LowerChar(s[i]))
  }

  lemma LowerAppend(a: string, b: string)
    ensures Lower(a + b) == Lower(a) + Lower(b)
  {
    assert forall i :: 0 <= i < |a + b| ==> Lower(a + b)[i] == (Lower(a) + Lower(b))[i];
  }

  /** `s.startswith(p)` */
  predicate IsPrefix(p: string, s: string) {
    |p| <= |s| && s[..|p|] == p
  }

  /** Python's `p in s`: the empty string occurs in every string. */
  predicate Contains(s: string, p: string)
    decreases |s|
  {
    IsPrefix(p, s) || (|s| > 0 && Contains(s[1..], p))
  }

  /** p occurs in s starting at index k. */
  predicate OccursAt(s: string, p: string, k: int) {
    0 <= k && k + |p| <= |s| && s[k..k + |p|] == p
  }

  lemma {:induction false} ContainsIffOccurs(s: string, p: string)
    ensures Contains(s, p) <==> exists k :: OccursAt(s, p, k)
    decreases |s|
  {
    if IsPrefix(p, s) {
      assert OccursAt(s, p, 0);
    } else if |s| > 0 {
      ContainsIffOccurs(s[1..], p);
      if Contains(s[1..], p) {
        var k :| OccursAt(s[1..], p, k);
        assert s[1..][k..k + |p|] == s[k + 1..k + 1 + |p|];
        assert OccursAt(s, p, k + 1);
      }
      if k :| OccursAt(s, p, k) {
        assert k != 0;
        assert s[1..][k - 1..k - 1 + |p|] == s[k..k + |p|];
        assert OccursAt(s[1..], p, k - 1);
      }
    } else {
      assert |p| > 0;
    }
  }

  lemma ContainsLength(s: string, p: string)
    requires Contains(s, p)
    ensures |p| <= |s|
  {
    ContainsIffOccurs(s, p);
  }

  /** Containment is transitive: a in b and b in c give a in c. */
  lemma ContainsTransitive(a: string, b: string, c: string)
    requires Contains(b, a) && Contains(c, b)
    ensures Contains(c, a)
  {
    ContainsIffOccurs(b, a);
    ContainsIffOccurs(c, b);
    var i :| OccursAt(b, a, i);
    var j :| OccursAt(c, b, j);
    forall t | 0 <= t < |a|
      ensures c[j + i + t] == a[t]
    {
      assert c[j + (i + t)] == b[i + t];
      assert b[i + t] == a[t];
    }
    assert c[j + i..j + i + |a|] == a;
    assert OccursAt(c, a, j + i);
    ContainsIffOccurs(c, a);
  }

  /** Every middle part of a concatenation is contained in it. */
  lemma ContainsInfix(x: string, p: string, y: string)
    ensures Contains(x + p + y, p)
  {
    assert (x + p + y)[|x|..|x| + |p|] == p;
    assert OccursAt(x + p + y, p, |x|);
    ContainsIffOccurs(x + p + y, p);
  }

  lemma ContainsOfPrefix(p: string, s: string)
    requires IsPrefix(p, s)
    ensures Contains(s, p)
  {
  }

  /** Python's `s.split(sep)`: the maximal separator-free pieces, in order. */
  function Split(s: string, sep: char): (r: seq<string>)
    ensures |r| >= 1
    ensures forall i :: 0 <= i < |r| ==> sep !in r[i]
    ensures Join(r, sep) == s
    decreases |s|
  {
    if |s| == 0 then [""]
    else
      var t := Split(s[1..], sep);
      if s[0] == sep then
        assert Join([""] + t, sep) == "" + [sep] + Join(t, sep);
        [""] + t
      else
        var r := [[s[0]] + t[0]] + t[1..];
        assert |t| > 1 ==> Join(t, sep) == t[0] + [sep] + Join(t[1..], sep);
        assert |t| > 1 ==> Join(r, sep) == [s[0]] + t[0] + [sep] + Join(t[1..], sep);
        r
  }

  /** `sep.join(parts)`, the inverse of `Split`. */
  function Join(parts: seq<string>, sep: char): string
    decreases |parts|
  {
    if |parts| == 0 then ""
    else if |parts| == 1 then parts[0]
    else parts[0] + [sep] + Join(parts[1..], sep)
  }

  lemma {:induction false} JoinHasSeparator(parts: seq<string>, sep: char)
    requires |parts| > 1
    ensures sep in Join(parts, sep)
  {
    assert Join(parts, sep)[|parts[0]|] == sep;
  }

  /** Splitting a separator-free string gives the string alone. */
  lemma {:induction false} SplitNoSeparator(s: string, sep: char)
    requires sep !in s
    ensures Split(s, sep) == [s]
  {
    var r := Split(s, sep);
    if |r| > 1 {
      JoinHasSeparator(r, sep);
      assert false;
    }
  }

  /** The first piece is the text up to the first separator. */
  lemma {:induction false} SplitConcat(a: string, sep: char, b: string)
    requires sep !in a
    ensures Split(a + [sep] + b, sep) == [a] + Split(b, sep)
    decreases |a|
  {
    if |a| == 0 {
      assert (a + [sep] + b)[1..] == b;
    } else {
      assert (a + [sep] + b)[1..] == a[1..] + [sep] + b;
      SplitConcat(a[1..], sep, b);
      assert [a[0]] + a[1..] == a;
    }
  }

  /** Every part occurs in the joined text. */
  lemma {:induction false} JoinContainsParts(parts: seq<string>, sep: char, k: nat)
    requires k < |parts|
    ensures Contains(Join(parts, sep), parts[k])
    decreases |parts|
  {
    if |parts| == 1 {
      assert IsPrefix(parts[0], parts[0]);
    } else {
      var rest := Join(parts[1..], sep);
      assert Join(parts, sep) == parts[0] + ([sep] + rest);
      if k == 0 {
        ContainsInfix("", parts[0], [sep] + rest);
        assert "" + parts[0] + ([sep] + rest) == Join(parts, sep);
      } else {
        JoinContainsParts(parts[1..], sep, k - 1);
        ContainsInfix(parts[0] + [sep], rest, "");
        assert parts[0] + [sep] + rest + "" == Join(parts, sep);
        ContainsTransitive(parts[k], rest, Join(parts, sep));
      }
    }
  }

  /** Every piece of a split occurs in the split text. */
  lemma SplitPiecesContained(s: string, sep: char, k: nat)
    requires k < |Split(s, sep)|
    ensures Contains(s, Split(s, sep)[k])
  {
    JoinContainsParts(Split(s, sep), sep, k);
  }

  /** A piece of a lower-case text is lower-case. */
  lemma ContainsLowerCase(s: string, p: string)
    requires Contains(s, p) && IsLowerCase(s)
    ensures IsLowerCase(p)
  {
    ContainsIffOccurs(s, p);
    var k :| OccursAt(s, p, k);
    assert forall i :: 0 <= i < |p| ==> p[i] == s[k + i];
  }

  /** Python's `s.split(sep, 1)[1]` when there are two parts: the text after the first separator. */
  function SplitOnce(s: string, sep: char): (r: Option<string>)
    ensures r.None? <==> sep !in s
    ensures r.Some? ==> |r.value| < |s| && s[|s| - |r.value|..] == r.value
    ensures r.Some? ==> s[|s| - |r.value| - 1] == sep && sep !in s[..|s| - |r.value| - 1]
    decreases |s|
  {
    if |s| == 0 then None
    else if s[0] == sep then Some(s[1..])
    else
      var r := SplitOnce(s[1..], sep);
      assert r.Some? ==> s[1..][..|s| - 1 - |r.value| - 1] == s[1..|s| - |r.value| - 1];
      assert sep !in s[1..] ==> sep !in s;
      r
  }

  /** Python's `s.split(sep)[-1]`: the text after the last separator. */
  function LastSegment(s: string, sep: char): (r: string)
    ensures sep !in r
    ensures |r| <= |s| && s[|s| - |r|..] == r
    ensures |r| < |s| ==> s[|s| - |r| - 1] == sep
    decreases |s|
  {
    match SplitOnce(s, sep)
    case None => s
    case Some(rest) =>
      var r := LastSegment(rest, sep);
      SuffixStep(s, rest, r, sep);
      r
  }

  /** A separator-led suffix of a suffix of s is a separator-led suffix of s. */
  lemma SuffixStep(s: string, rest: string, r: string, sep: char)
    requires |rest| < |s| && s[|s| - |rest|..] == rest && s[|s| - |rest| - 1] == sep
    requires |r| <= |rest| && rest[|rest| - |r|..] == r
    requires |r| < |rest| ==> rest[|rest| - |r| - 1] == sep
    ensures s[|s| - |r|..] == r && s[|s| - |r| - 1] == sep
  {
    assert forall i :: 0 <= i < |rest| ==> rest[i] == s[|s| - |rest| + i];
  }

  /** `LastSegment` is the last piece of `Split`. */
  lemma {:induction false} LastSegmentIsLastPiece(s: string, sep: char)
    ensures var parts := Split(s, sep); parts[|parts| - 1] == LastSegment(s, sep)
    decreases |s|
  {
    if |s| > 0 {
      LastSegmentIsLastPiece(s[1..], sep);
      if s[0] == sep {
        LastPieceAfterSeparator(s, sep);
      } else if |Split(s[1..], sep)| == 1 {
        LastPieceWhole(s, sep);
      } else {
        LastPieceInner(s, sep);
      }
    }
  }

  lemma LastPieceAfterSeparator(s: string, sep: char)
    requires |s| > 0 && s[0] == sep
    ensures var parts := Split(s, sep); var t := Split(s[1..], sep);
            parts[|parts| - 1] == t[|t| - 1]
    ensures LastSegment(s, sep) == LastSegment(s[1..], sep)
  {
    assert Split(s, sep) == [""] + Split(s[1..], sep);
    assert SplitOnce(s, sep) == Some(s[1..]);
  }

  lemma LastPieceWhole(s: string, sep: char)
    requires |s| > 0 && s[0] != sep && |Split(s[1..], sep)| == 1
    ensures var parts := Split(s, sep); parts[|parts| - 1] == s == LastSegment(s, sep)
  {
    var t := Split(s[1..], sep);
    assert Join(t, sep) == t[0] == s[1..];
    assert Split(s, sep) == [[s[0]] + s[1..]];
    assert [s[0]] + s[1..] == s;
    assert sep !in s;
  }

  lemma LastPieceInner(s: string, sep: char)
    requires |s| > 0 && s[0] != sep && |Split(s[1..], sep)| > 1
    ensures var parts := Split(s, sep); var t := Split(s[1..], sep);
            parts[|parts| - 1] == t[|t| - 1]
    ensures LastSegment(s, sep) == LastSegment(s[1..], sep)
  {
    var t := Split(s[1..], sep);
    assert Split(s, sep) == [[s[0]] + t[0]] + t[1..];
    JoinHasSeparator(t, sep);
    var rest := SplitOnce(s[1..], sep);
    assert SplitOnce(s, sep) == rest;
  }

  /** The last segment of `p + [sep] + x`, where x is separator-free, is x. */
  lemma LastSegmentAfterSeparator(p: string, sep: char, x: string)
    requires sep !in x
    ensures LastSegment(p + [sep] + x, sep) == x
  {
    var s := p + [sep] + x;
    var r := LastSegment(s, sep);
    assert s[|s| - |x| - 1] == sep;
    assert forall i :: 0 <= i < |r| ==> r[i] == s[|s| - |r| + i];
    assert forall i :: 0 <= i < |x| ==> x[i] == s[|s| - |x| + i];
    assert |r| == |x|;
    assert s[|s| - |x|..] == x;
  }

  /** No white space at either end. */
  predicate Trimmed(s: string) {
    s == [] || (!IsSpace(s[0]) && !IsSpace(s[|s| - 1]))
  }

  /** The number of leading white-space characters. */
  function Lead(s: string): (n: nat)
    ensures n <= |s| && (forall i :: 0 <= i < n ==> IsSpace(s[i]))
    ensures n == |s| || !IsSpace(s[n])
    decreases |s|
  {
    if |s| > 0 && IsSpace(s[0]) then 1 + Lead(s[1..]) else 0
  }

  /** The number of trailing white-space characters. */
  function Trail(s: string): (n: nat)
    ensures n <= |s| && (forall i :: |s| - n <= i < |s| ==> IsSpace(s[i]))
    ensures n == |s| || !IsSpace(s[|s| - 1 - n])
    decreases |s|
  {
    if |s| > 0 && IsSpace(s[|s| - 1]) then 1 + Trail(s[..|s| - 1]) else 0
  }

  /** `s.strip()`: leading and trailing white space removed. */
  function Strip(s: string): (r: string)
    ensures Trimmed(r)
    ensures Lead(s) + |r| <= |s| && s[Lead(s)..Lead(s) + |r|] == r
    ensures forall i :: 0 <= i < Lead(s) ==> IsSpace(s[i])
    ensures forall i :: Lead(s) + |r| <= i < |s| ==> IsSpace(s[i])
  {
    var t := s[Lead(s)..];
    t[..|t| - Trail(t)]
  }

  /** Stripping a string that has no outer white space changes nothing. */
  lemma StripStripped(s: string)
    requires Trimmed(s)
    ensures Strip(s) == s
  {
  }

  /** Lower-casing keeps white space where it is. */
  lemma LowerTrimmed(s: string)
    requires Trimmed(s)
    ensures Trimmed(Lower(s))
  {
    if s != [] {
      assert Lower(s)[0] == LowerChar(s[0]);
      assert Lower(s)[|s| - 1] == LowerChar(s[|s| - 1]);
    }
  }

  predicate IsDigits(s: string) {
    |s| > 0 && forall i :: 0 <= i < |s| ==> IsDigit(s[i])
  }

  function DigitValue(c: char): nat
    requires IsDigit(c)
  {
    c as int - '0' as int
  }

  function DigitChar(d: nat): (c: char)
    requires d < 10
    ensures IsDigit(c) && DigitValue(c) == d
  {
    ('0' as int + d) as char
  }

  /** The base-ten value of a digit string (leading zeros allowed). */
  function DigitsValue(s: string): nat
    requires forall i :: 0 <= i < |s| ==> IsDigit(s[i])
    decreases |s|
  {
    if |s| == 0 then 0 else DigitsValue(s[..|s| - 1]) * 10 + DigitValue(s[|s| - 1])
  }

  /** `str(n)` for a natural number: the canonical decimal text, with no
      leading zero except for zero itself. */
  function NatToString(n: nat): (r: string)
    ensures IsDigits(r)
    ensures r[0] == '0' <==> n == 0
    ensures |r| == 1 || r[0] != '0'
    decreases n
  {
    if n < 10 then [DigitChar(n)] else NatToString(n / 10) + [DigitChar(n % 10)]
  }

  /** Reads a plain digit string. */
  function ParseNat(s: string): (r: Option<nat>)
    ensures r.Some? <==> IsDigits(s)
  {
    if IsDigits(s) then Some(DigitsValue(s)) else None
  }

  lemma {:induction false} ParseNatToString(n: nat)
    ensures ParseNat(NatToString(n)) == Some(n)
    decreases n
  {
    var s := NatToString(n);
    if n >= 10 {
      ParseNatToString(n / 10);
      assert s[..|s| - 1] == NatToString(n / 10);
      assert DigitsValue(s[..|s| - 1]) == n / 10;
      assert DigitValue(s[|s| - 1]) == n % 10;
      assert DigitsValue(s) == (n / 10) * 10 + n % 10;
    } else {
      assert s[..0] == [];
      assert DigitsValue(s) == DigitsValue(s[..0]) * 10 + DigitValue(s[0]);
    }
  }

  /** Digits with single underscores between them, as Python's `int` accepts. */
  predicate IsGroupedDigits(s: string) {
    && |s| > 0 && IsDigit(s[0]) && IsDigit(s[|s| - 1])
    && (forall i :: 0 <= i < |s| ==> IsDigit(s[i]) || s[i] == '_')
    && (forall i :: 0 <= i < |s| - 1 ==> !(s[i] == '_' && s[i + 1] == '_'))
  }

  function DropUnderscores(s: string): (r: string)
    ensures |r| <= |s|
    ensures '_' !in r
    ensures (forall i :: 0 <= i < |s| ==> IsDigit(s[i]) || s[i] == '_') ==> (forall i :: 0 <= i < |r| ==> IsDigit(r[i]))
    ensures '_' !in s ==> r == s
    decreases |s|
  {
    if |s| == 0 then ""
    else (if s[0] == '_' then "" else [s[0]]) + DropUnderscores(s[1..])
  }

  /** Python's `int(s)` on an ASCII string: outer white space, an optional
      sign, and decimal digits optionally grouped by single underscores. */
  function PyInt(s: string): (r: Option<int>)
    ensures r.Some? ==> var t := Strip(s); |t| > 0
  {
    var t := Strip(s);
    var signed := |t| > 0 && (t[0] == '+' || t[0] == '-');
    var body := if signed then t[1..] else t;
    if !IsGroupedDigits(body) then None
    else
      var v: int := DigitsValue(DropUnderscores(body));
      Some(if signed && t[0] == '-' then -v else v)
  }

  lemma PyIntOfNatToString(n: nat)
    ensures PyInt(NatToString(n)) == Some(n)
  {
    var s := NatToString(n);
    assert Trimmed(s);
    StripStripped(s);
    assert Strip(s) == s;
    assert !(s[0] == '+' || s[0] == '-');
    assert '_' !in s;
    assert IsGroupedDigits(s);
    assert DropUnderscores(s) == s;
    ParseNatToString(n);
    assert DigitsValue(s) == n;
  }
}
