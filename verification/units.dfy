/** The whole-byte branch of `human_readable_size`, which exists in three
    slightly different copies: the desktop server (app.py), the web server
    (web.py) and the terminal cleaner (mac.py). Sizes of 1024 bytes and more
    are printed with one decimal of a floating-point quotient, which is not
    modelled: the function then answers None. */
module Units {
  import opened Text

  /** What distinguishes the copies: the text for a negative size and the
      text between the number and the unit letter. */
  datatype Style = Style(negative: string, gap: string)

  const DesktopStyle: Style := Style("0 B", " ")
  const WebStyle: Style := Style("0B", " ")
  const TerminalStyle: Style := Style("0B", "")

  /** `human_readable_size(n)` when n < 1024. */
  function HumanSize(style: Style, n: int): (r: Option<string>)
    ensures r.Some? <==> n < 1024
    ensures n < 0 ==> r == Some(style.negative)
    ensures 0 <= n < 1024 ==> |r.value| >= 1 + |style.gap| && r.value[|r.value| - 1] == 'B'
    ensures 0 <= n < 1024 ==> (r.value[0] == '0' <==> n == 0)
  {
    if n < 0 then Some(style.negative)
    else if n < 1024 then Some(NatToString(n) + style.gap + "B")
    else None
  }

  /** Reads a whole-byte size text back. */
  function ParseSize(style: Style, text: string): (r: Option<nat>)
    ensures r.Some? ==> |text| > |style.gap|
  {
    var k := |text| - 1 - |style.gap|;
    if k > 0 && text[k..] == style.gap + "B" then ParseNat(text[..k]) else None
  }

  /** A size below 1024 bytes is printed as its exact decimal value. */
  lemma HumanSizeRoundTrip(style: Style, n: nat)
    requires n < 1024
    ensures ParseSize(style, HumanSize(style, n).value) == Some(n)
  {
    var digits := NatToString(n);
    var text := digits + style.gap + "B";
    assert text[|digits|..] == style.gap + "B";
    assert text[..|digits|] == digits;
    ParseNatToString(n);
  }

  /** Whole-byte texts of different sizes differ. */
  lemma HumanSizeInjective(style: Style, a: nat, b: nat)
    requires a < 1024 && b < 1024 && HumanSize(style, a) == HumanSize(style, b)
    ensures a == b
  {
    HumanSizeRoundTrip(style, a);
    HumanSizeRoundTrip(style, b);
  }
}
