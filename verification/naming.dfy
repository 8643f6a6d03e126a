/** Display names inferred from bundle identifiers and folder names
    (`infer_app_name`): the last dot-separated segment, split at
    lower-to-upper case boundaries, with dashes and underscores turned into
    spaces, then title-cased the way Python's `str.title` does on ASCII. */
module Naming {
  import opened Text

  const UnknownApp: string := "Unknown App"

  /** A lower-case letter directly followed by an upper-case one at position i. */
  predicate CamelBoundary(s: string, i: int) {
    0 <= i && i + 1 < |s| && IsLower(s[i]) && IsUpper(s[i + 1])
  }

  /** The characters of s other than spaces, in order. */
  function WithoutSpaces(s: string): string
    decreases |s|
  {
    if |s| == 0 then "" else (if s[0] == ' ' then "" else [s[0]]) + WithoutSpaces(s[1..])
  }

  /** `re.sub(r'([a-z])([A-Z])', r'\1 \2', s)`. A match ends on an upper-case
      letter, which can never start the next match, so scanning one
      character at a time finds the same non-overlapping matches. */
  function SplitCamel(s: string): string
    decreases |s|
  {
    if |s| < 2 then s
    else if IsLower(s[0]) && IsUpper(s[1]) then [s[0], ' '] + SplitCamel(s[1..])
    else [s[0]] + SplitCamel(s[1..])
  }

  /** Splitting leaves no lower-to-upper boundary, only inserts spaces, and
      keeps every other character in order. */
  lemma {:induction false} SplitCamelSpec(s: string)
    ensures var r := SplitCamel(s);
            && (forall i :: !CamelBoundary(r, i))
            && WithoutSpaces(r) == WithoutSpaces(s)
            && |r| >= |s|
            && (|s| > 0 ==> |r| > 0 && r[0] == s[0])
            && (forall i :: 0 <= i < |r| ==> r[i] == ' ' || r[i] in s)
    decreases |s|
  {
    if |s| >= 2 {
      var rest := SplitCamel(s[1..]);
      SplitCamelSpec(s[1..]);
      assert forall i :: 0 <= i < |rest| ==> rest[i] == ' ' || rest[i] in s;
      if IsLower(s[0]) && IsUpper(s[1]) {
        var r := [s[0], ' '] + rest;
        assert r == SplitCamel(s);
        assert r[1..] == [' '] + rest;
        assert ([' '] + rest)[1..] == rest;
        assert WithoutSpaces([' '] + rest) == WithoutSpaces(rest);
        assert WithoutSpaces(r) == [s[0]] + WithoutSpaces(r[1..]);
        assert WithoutSpaces(s) == [s[0]] + WithoutSpaces(s[1..]);
        assert forall i :: 2 <= i < |r| ==> r[i] == rest[i - 2];
        assert !CamelBoundary(r, 0) && !CamelBoundary(r, 1);
        assert forall i :: 2 <= i ==> (CamelBoundary(r, i) ==> CamelBoundary(rest, i - 2));
      } else {
        var r := [s[0]] + rest;
        assert r == SplitCamel(s);
        assert r[1..] == rest;
        assert forall i :: 1 <= i < |r| ==> r[i] == rest[i - 1];
        assert !CamelBoundary(r, 0);
        assert forall i :: 1 <= i ==> (CamelBoundary(r, i) ==> CamelBoundary(rest, i - 1));
      }
    }
  }

  /** The reference reading of the substitution on s from position k on:
      each character in order, followed by a space exactly when it is the
      lower-case half of a lower-to-upper boundary. */
  function Spaced(s: string, k: nat): string
    requires k <= |s|
    decreases |s| - k
  {
    if k == |s| then "" else (if CamelBoundary(s, k) then [s[k], ' '] else [s[k]]) + Spaced(s, k + 1)
  }

  lemma {:induction false} SplitCamelSuffix(s: string, k: nat)
    requires k <= |s|
    ensures SplitCamel(s[k..]) == Spaced(s, k)
    decreases |s| - k
  {
    var t := s[k..];
    if k == |s| {
      assert t == [];
    } else if k == |s| - 1 {
      assert t == [s[k]];
      assert !CamelBoundary(s, k);
    } else {
      SplitCamelSuffix(s, k + 1);
      assert t[1..] == s[k + 1..];
      assert t[0] == s[k] && t[1] == s[k + 1];
    }
  }

  lemma {:induction false} SpacedPlain(s: string, k: nat)
    requires k <= |s|
    requires forall i :: !CamelBoundary(s, i)
    ensures Spaced(s, k) == s[k..]
    decreases |s| - k
  {
    if k < |s| {
      SpacedPlain(s, k + 1);
      assert !CamelBoundary(s, k);
      assert s[k..] == [s[k]] + s[k + 1..];
    }
  }

  /** The substitution inserts a space after exactly the lower-case letters
      directly followed by an upper-case one, and nowhere else: text with
      no such boundary comes back unchanged. */
  lemma SplitCamelAtBoundaries(s: string)
    ensures SplitCamel(s) == Spaced(s, 0)
    ensures (forall i :: !CamelBoundary(s, i)) ==> SplitCamel(s) == s
  {
    SplitCamelSuffix(s, 0);
    assert s[0..] == s;
    if forall i :: !CamelBoundary(s, i) {
      SpacedPlain(s, 0);
    }
  }

  /** A character `replace` and word splitting treat as a gap. */
  predicate IsGap(c: char) {
    c == ' ' || c == '-' || c == '_'
  }

  /** The characters of s other than spaces, dashes and underscores, in order. */
  function Squeeze(s: string): string
    decreases |s|
  {
    if |s| == 0 then "" else (if IsGap(s[0]) then "" else [s[0]]) + Squeeze(s[1..])
  }

  /** Splitting at case boundaries adds nothing but gaps. */
  lemma {:induction false} SplitCamelSqueeze(s: string)
    ensures Squeeze(SplitCamel(s)) == Squeeze(s)
    decreases |s|
  {
    if |s| >= 2 {
      var rest := SplitCamel(s[1..]);
      SplitCamelSqueeze(s[1..]);
      if IsLower(s[0]) && IsUpper(s[1]) {
        var r := [s[0], ' '] + rest;
        assert r[1..] == [' '] + rest;
        assert ([' '] + rest)[1..] == rest;
        assert Squeeze([' '] + rest) == Squeeze(rest);
        assert Squeeze(r) == [s[0]] + Squeeze(r[1..]);
      } else {
        var r := [s[0]] + rest;
        assert r[1..] == rest;
      }
    }
  }

  /** Blanking dashes and underscores, then dropping spaces, drops every gap. */
  lemma {:induction false} DashesSqueeze(s: string)
    ensures WithoutSpaces(DashesToSpaces(s)) == Squeeze(s)
    decreases |s|
  {
    if |s| > 0 {
      var r := DashesToSpaces(s);
      assert r[1..] == DashesToSpaces(s[1..]);
      DashesSqueeze(s[1..]);
    }
  }

  /** Lower-casing and dropping spaces commute. */
  lemma {:induction false} WithoutSpacesLower(s: string)
    ensures WithoutSpaces(Lower(s)) == Lower(WithoutSpaces(s))
    decreases |s|
  {
    if |s| > 0 {
      var head := if s[0] == ' ' then "" else [s[0]];
      assert Lower(s)[1..] == Lower(s[1..]);
      assert Lower(head) == (if Lower(s)[0] == ' ' then "" else [Lower(s)[0]]);
      WithoutSpacesLower(s[1..]);
      LowerAppend(head, WithoutSpaces(s[1..]));
    }
  }

  /** `.replace('-', ' ').replace('_', ' ')` */
  function DashesToSpaces(s: string): (r: string)
    ensures |r| == |s|
    ensures '-' !in r && '_' !in r
    ensures forall i :: 0 <= i < |s| && (s[i] == '-' || s[i] == '_') ==> r[i] == ' '
    ensures forall i :: 0 <= i < |s| && s[i] != '-' && s[i] != '_' ==> r[i] == s[i]
  {
    seq(|s|, i requires 0 <= i < |s| => if s[i] == '-' || s[i] == '_' then ' ' else s[i])
  }

  /** Position i does not follow a letter. */
  predicate WordStart(r: string, i: int)
    requires 0 <= i < |r|
  {
    i == 0 || !IsLetter(r[i - 1])
  }

  /** Every letter is upper-case exactly when it starts a word, a word
      being a maximal run of letters. */
  predicate IsTitleCased(r: string) {
    forall i :: 0 <= i < |r| && IsLetter(r[i]) ==> (IsUpper(r[i]) <==> WordStart(r, i))
  }

  /** `str.title` scanning from a state where the previous character was
      (`prevCased`) or was not a letter. */
  function TitleFrom(s: string, prevCased: bool): string
    decreases |s|
  {
    if |s| == 0 then ""
    else
      var c := if !IsLetter(s[0]) then s[0] else if prevCased then LowerChar(s[0]) else UpperChar(s[0]);
      [c] + TitleFrom(s[1..], IsLetter(s[0]))
  }

  /** Title-casing changes only the case of letters, upper-casing exactly
      the letters that do not follow a letter. */
  lemma {:induction false} TitleFromSpec(s: string, prevCased: bool)
    ensures var r := TitleFrom(s, prevCased);
            && |r| == |s|
            && (forall i :: 0 <= i < |s| ==> LowerChar(r[i]) == LowerChar(s[i]))
            && (forall i :: 0 <= i < |s| ==> (IsLetter(r[i]) <==> IsLetter(s[i])))
            && (forall i :: 0 <= i < |s| && !IsLetter(s[i]) ==> r[i] == s[i])
            && (forall i :: 0 <= i < |s| && IsLetter(s[i]) ==>
                  (IsUpper(r[i]) <==> if i == 0 then !prevCased else !IsLetter(s[i - 1])))
    decreases |s|
  {
    if |s| > 0 {
      TitleFromSpec(s[1..], IsLetter(s[0]));
      var rest := TitleFrom(s[1..], IsLetter(s[0]));
      var r := TitleFrom(s, prevCased);
      assert r[1..] == rest;
      assert forall i :: 1 <= i < |r| ==> r[i] == rest[i - 1] && s[i] == s[1..][i - 1];
    }
  }

  /** Python's `str.title` on ASCII text. */
  function Title(s: string): (r: string)
    ensures |r| == |s|
    ensures IsTitleCased(r)
    ensures forall i :: 0 <= i < |s| ==> LowerChar(r[i]) == LowerChar(s[i])
    ensures forall i :: 0 <= i < |s| && !IsLetter(s[i]) ==> r[i] == s[i]
  {
    TitleFromSpec(s, false);
    TitleFrom(s, false)
  }

  /** Lower-casing keeps letters letters and everything else unchanged. */
  lemma LowerCharLetter(c: char)
    ensures IsLetter(LowerChar(c)) <==> IsLetter(c)
    ensures !IsLetter(c) ==> LowerChar(c) == c
  {
  }

  /** Text that is already title-cased is left as it is. */
  lemma TitleCasedFixed(s: string)
    requires IsTitleCased(s)
    ensures Title(s) == s
  {
    var r := Title(s);
    TitleLower(s);
    TitleCasedUnique(r, s);
  }

  /** Title-casing changes no letter's lower-case form. */
  lemma TitleLower(s: string)
    ensures Lower(Title(s)) == Lower(s)
  {
    var r := Title(s);
    assert forall i :: 0 <= i < |s| ==> Lower(r)[i] == Lower(s)[i];
  }

  /** Two title-cased texts with the same lower-case form are equal. */
  lemma TitleCasedUnique(r: string, s: string)
    requires IsTitleCased(r) && IsTitleCased(s) && Lower(r) == Lower(s)
    ensures r == s
  {
    assert forall i :: 0 <= i < |s| ==> LowerChar(r[i]) == Lower(r)[i] == LowerChar(s[i]);
    forall i | 0 <= i < |s|
      ensures IsLetter(r[i]) <==> IsLetter(s[i])
    {
      LowerCharLetter(r[i]);
      LowerCharLetter(s[i]);
    }
    forall i | 0 <= i < |s|
      ensures r[i] == s[i]
    {
      if IsLetter(s[i]) {
        assert i > 0 ==> (IsLetter(r[i - 1]) <==> IsLetter(s[i - 1]));
        TitleCasedAt(r, i);
        TitleCasedAt(s, i);
        SameLetter(r[i], s[i]);
      } else {
        LowerCharLetter(r[i]);
        LowerCharLetter(s[i]);
      }
    }
  }

  lemma TitleCasedAt(s: string, i: int)
    requires IsTitleCased(s) && 0 <= i < |s| && IsLetter(s[i])
    ensures IsUpper(s[i]) <==> WordStart(s, i)
  {
  }

  /** Two letters with the same lower-case form and the same case are equal. */
  lemma SameLetter(a: char, b: char)
    requires IsLetter(a) && IsLetter(b) && LowerChar(a) == LowerChar(b) && (IsUpper(a) <==> IsUpper(b))
    ensures a == b
  {
  }

  /** Title-casing twice is title-casing once. */
  lemma TitleIdempotent(s: string)
    ensures Title(Title(s)) == Title(s)
  {
    TitleCasedFixed(Title(s));
  }

  /** The three rewriting steps applied to one dot-free segment. */
  function FormatSegment(segment: string): (r: string)
    requires '.' !in segment
    ensures '.' !in r && '-' !in r && '_' !in r
    ensures IsTitleCased(r)
    ensures |r| >= |segment|
    ensures Lower(r) == Lower(DashesToSpaces(Spaced(segment, 0)))
    ensures Lower(WithoutSpaces(r)) == Lower(Squeeze(segment))
  {
    var spaced := SplitCamel(segment);
    SplitCamelSpec(segment);
    SplitCamelAtBoundaries(segment);
    var plain := DashesToSpaces(spaced);
    assert '.' !in plain by {
      forall i | 0 <= i < |plain|
        ensures plain[i] != '.'
      {
        assert spaced[i] == ' ' || spaced[i] in segment;
      }
    }
    var r := Title(plain);
    NotLetterKept(plain, r);
    TitleLower(plain);
    SegmentLetters(segment, plain, r);
    r
  }

  /** The letters and digits of the name are those of the segment, up to case. */
  lemma SegmentLetters(segment: string, plain: string, r: string)
    requires plain == DashesToSpaces(SplitCamel(segment)) && Lower(r) == Lower(plain)
    ensures Lower(WithoutSpaces(r)) == Lower(Squeeze(segment))
  {
    WithoutSpacesLower(r);
    WithoutSpacesLower(plain);
    DashesSqueeze(SplitCamel(segment));
    SplitCamelSqueeze(segment);
  }

  lemma NotLetterKept(plain: string, r: string)
    requires r == Title(plain)
    requires '.' !in plain && '-' !in plain && '_' !in plain
    ensures '.' !in r && '-' !in r && '_' !in r
  {
    forall i | 0 <= i < |r|
      ensures r[i] != '.' && r[i] != '-' && r[i] != '_'
    {
      if !IsLetter(plain[i]) {
        assert r[i] == plain[i];
      } else {
        assert IsLetter(r[i]);
      }
    }
  }

  /** `infer_app_name(bundle_id)` */
  function InferAppName(bundleId: string): (r: string)
    ensures bundleId == "" ==> r == UnknownApp
    ensures bundleId != "" ==> '.' !in r && '-' !in r && '_' !in r
    ensures bundleId != "" ==> IsTitleCased(r)
    ensures bundleId != "" ==> |r| >= |LastSegment(bundleId, '.')|
    ensures bundleId != "" ==> Lower(r) == Lower(DashesToSpaces(Spaced(LastSegment(bundleId, '.'), 0)))
    ensures bundleId != "" ==> Lower(WithoutSpaces(r)) == Lower(Squeeze(LastSegment(bundleId, '.')))
  {
    if bundleId == "" then UnknownApp else FormatSegment(LastSegment(bundleId, '.'))
  }

  /** The inferred name is the only title-cased text whose lower-case form
      is the last segment with a space at each case boundary and dashes
      and underscores blanked. */
  lemma InferAppNameDetermined(bundleId: string, name: string)
    requires bundleId != "" && IsTitleCased(name)
    requires Lower(name) == Lower(DashesToSpaces(Spaced(LastSegment(bundleId, '.'), 0)))
    ensures name == InferAppName(bundleId)
  {
    TitleCasedUnique(name, InferAppName(bundleId));
  }

  /** Only the text after the last '.' matters. */
  lemma InferAppNameUsesLastSegment(prefix: string, segment: string)
    requires segment != "" && '.' !in segment
    ensures InferAppName(prefix + "." + segment) == InferAppName(segment)
  {
    LastSegmentAfterSeparator(prefix, '.', segment);
    assert LastSegment(segment, '.') == segment;
  }

  lemma SplitCamelExample()
    ensures SplitCamel("MyCoolApp") == "My Cool App"
  {
    SplitCamelExampleMiddle();
    assert "MyCoolApp"[1..] == "yCoolApp";
    assert ['M'] + "y Cool App" == "My Cool App";
  }

  lemma SplitCamelExampleMiddle()
    ensures SplitCamel("yCoolApp") == "y Cool App"
  {
    SplitCamelExampleTail();
    assert "yCoolApp"[1..] == "CoolApp";
    assert ['y', ' '] + "Cool App" == "y Cool App";
  }

  lemma SplitCamelExampleTail()
    ensures SplitCamel("CoolApp") == "Cool App"
  {
    assert SplitCamel("pp") == "pp" by { assert "pp"[1..] == "p"; }
    assert SplitCamel("App") == "App" by { assert "App"[1..] == "pp"; }
    assert SplitCamel("lApp") == "l App" by { assert "lApp"[1..] == "App"; }
    assert SplitCamel("olApp") == "ol App" by { assert "olApp"[1..] == "lApp"; }
    assert SplitCamel("oolApp") == "ool App" by { assert "oolApp"[1..] == "olApp"; }
    assert SplitCamel("CoolApp") == "Cool App" by { assert "CoolApp"[1..] == "oolApp"; }
  }

  lemma TitleExample()
    ensures Title("My Cool App") == "My Cool App"
  {
    var s := "My Cool App";
    assert IsTitleCased(s) by {
      assert forall i :: 0 <= i < |s| ==> s[i] == "My Cool App"[i];
    }
    TitleCasedFixed(s);
  }

  lemma DashesToSpacesExample()
    ensures DashesToSpaces("My Cool App") == "My Cool App"
  {
    var s := "My Cool App";
    assert forall i :: 0 <= i < |s| ==> s[i] != '-' && s[i] != '_';
  }

  lemma FormatSegmentExample()
    ensures FormatSegment("MyCoolApp") == "My Cool App"
  {
    SplitCamelExample();
    DashesToSpacesExample();
    TitleExample();
  }

  lemma InferAppNameDotFreeExample()
    ensures InferAppName("MyCoolApp") == "My Cool App"
  {
    var s := "MyCoolApp";
    assert LastSegment(s, '.') == s by {
      assert forall i :: 0 <= i < |s| ==> s[i] != '.';
    }
    FormatSegmentExample();
  }

  /** The worked examples of the name inference: "com.example.MyCoolApp"
      and "MyCoolApp" both give "My Cool App"; the empty id gives the
      placeholder. */
  lemma InferAppNameExample()
    ensures InferAppName("MyCoolApp") == "My Cool App"
    ensures InferAppName("com.example" + "." + "MyCoolApp") == "My Cool App"
    ensures InferAppName("") == "Unknown App"
  {
    var s := "MyCoolApp";
    assert forall i :: 0 <= i < |s| ==> s[i] != '.';
    InferAppNameDotFreeExample();
    InferAppNameUsesLastSegment("com.example", s);
  }
}
