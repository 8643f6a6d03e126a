/** The terminal cleaner (mac.py): scan the catalogue and the sandboxed
    containers, then run the interactive selection menu until the user
    quits or confirms a deletion. Existence checks and size measurements
    are given as probes, as in the cache scan; what the user types and
    answers to the confirmation prompt are inputs. The deletion itself is
    not modelled: the menu's last step hands over the locations to clean. */
module Menu {
  import opened Text
  import opened Collections
  import CacheScan

  // ---------------------------------------------------------------------
  // Size colouring.

  /** `SizeCategory`, which picks the colour of a size in the menu. */
  datatype SizeCategory = Tiny | Small | Medium | Large

  const MiB: nat := 1024 * 1024

  /** `get_size_category`: strict thresholds at 10 MiB, 100 MiB and 1 GiB. */
  function SizeCategoryOf(size: int): (r: SizeCategory)
    ensures r == Large <==> size > 1024 * MiB
    ensures r == Medium <==> 100 * MiB < size <= 1024 * MiB
    ensures r == Small <==> 10 * MiB < size <= 100 * MiB
    ensures r == Tiny <==> size <= 10 * MiB
  {
    if size > 1073741824 then Large
    else if size > 104857600 then Medium
    else if size > 10485760 then Small
    else Tiny
  }

  function Rank(c: SizeCategory): nat {
    match c
    case Tiny => 0
    case Small => 1
    case Medium => 2
    case Large => 3
  }

  /** A larger size never gets a smaller category. */
  lemma SizeCategoryMonotone(a: int, b: int)
    requires a <= b
    ensures Rank(SizeCategoryOf(a)) <= Rank(SizeCategoryOf(b))
  {
  }

  // ---------------------------------------------------------------------
  // Scanning.

  /** mac.py's `CacheLocation`; `present` is its `exists` flag, and the
      human-readable size is left out. */
  datatype Location = Location(path: string, description: string, category: string, size: nat, selected: bool, present: bool)

  /** A location as the catalogue or the container scan creates it. */
  function NewLocation(path: string, description: string, category: string): (l: Location)
    ensures l.size == 0 && !l.selected && !l.present
  {
    Location(path, description, category, 0, false, false)
  }

  /** A location and what probing its path reports. */
  datatype Entry = Entry(loc: Location, probe: CacheScan.Probe)

  predicate Kept(e: Entry) {
    e.probe.Present? && e.probe.size > 0
  }

  /** The kept location, updated in place as the loop does. */
  function Marked(e: Entry): (l: Location)
    ensures l.present && l.selected && l.size == CacheScan.Measured(e.probe)
    ensures l.path == e.loc.path && l.description == e.loc.description && l.category == e.loc.category
  {
    e.loc.(present := true, size := CacheScan.Measured(e.probe), selected := true)
  }

  /** `scan_locations`: the existing non-empty locations, preselected, in
      order. The same filter as the web server's catalogue scan, kept
      separate because the terminal cleaner has its own location record. */
  function ScanLocations(entries: seq<Entry>): (r: seq<Location>)
    ensures |r| <= |entries|
  {
    FilterMap(entries, Kept, Marked)
  }

  /** Every scanned location exists, is preselected and is not empty. */
  predicate AllFound(s: seq<Location>) {
    forall i :: 0 <= i < |s| ==> s[i].present && s[i].selected && s[i].size > 0
  }

  lemma ScanLocationsSpec(entries: seq<Entry>)
    ensures AllFound(ScanLocations(entries))
    ensures forall l :: l in ScanLocations(entries) <==> exists e :: e in entries && Kept(e) && l == Marked(e)
    ensures ScanLocations(entries) == [] <==> forall e :: e in entries ==> !Kept(e)
  {
    FilterMapMembers(entries, Kept, Marked);
    var r := ScanLocations(entries);
    forall i | 0 <= i < |r|
      ensures r[i].present && r[i].selected && r[i].size > 0
    {
      assert r[i] in r;
    }
    forall e | e in entries && Kept(e)
      ensures r != []
    {
      assert Marked(e) in r;
    }
    if r != [] {
      assert r[0] in r;
    }
  }

  /** Scanning two lists one after the other gives the two results in order. */
  lemma ScanLocationsAppend(a: seq<Entry>, b: seq<Entry>)
    ensures ScanLocations(a + b) == ScanLocations(a) + ScanLocations(b)
  {
    FilterMapAppend(a, b, Kept, Marked);
  }

  /** A container has a cache folder when `Data/Library/Caches` exists and is a directory. */
  predicate HasCache(c: CacheScan.Container) {
    c.cache.Present?
  }

  /** The location created for a container's cache folder. */
  function SandboxLocation(c: CacheScan.Container): Location {
    NewLocation(c.cachePath, CacheScan.AppName(c.name) + " Container Cache", "Containers")
  }

  function SandboxEntry(c: CacheScan.Container): Entry {
    Entry(SandboxLocation(c), c.cache)
  }

  /** `scan_sandboxed_apps`, each location paired with the probe of its
      folder. Listing checks only that the folder exists; `scan_locations`
      checks that again and measures it, and one probe stands for both. */
  function ScanSandboxedApps(containers: seq<CacheScan.Container>): (r: seq<Entry>)
    ensures |r| <= |containers|
  {
    FilterMap(containers, HasCache, SandboxEntry)
  }

  /** A container contributes a menu line exactly when its cache folder is a
      non-empty directory, and the line names its application. */
  lemma SandboxMembers(containers: seq<CacheScan.Container>)
    ensures forall l :: l in ScanLocations(ScanSandboxedApps(containers)) <==>
              exists c :: c in containers && c.cache.Present? && c.cache.size > 0 && l == Marked(SandboxEntry(c))
  {
    var entries := ScanSandboxedApps(containers);
    FilterMapMembers(containers, HasCache, SandboxEntry);
    ScanLocationsSpec(entries);
    forall l | l in ScanLocations(entries)
      ensures exists c :: c in containers && c.cache.Present? && c.cache.size > 0 && l == Marked(SandboxEntry(c))
    {
      var e :| e in entries && Kept(e) && l == Marked(e);
      var c :| c in containers && HasCache(c) && e == SandboxEntry(c);
    }
    forall c | c in containers && c.cache.Present? && c.cache.size > 0
      ensures Marked(SandboxEntry(c)) in ScanLocations(entries)
    {
      assert SandboxEntry(c) in entries;
    }
  }

  /** The start of `main`: None when the catalogue has nothing to clean (the
      program stops there), otherwise the menu's locations. */
  function Setup(catalogue: seq<Entry>, containers: seq<CacheScan.Container>): (r: Option<seq<Location>>)
    ensures r.None? <==> ScanLocations(catalogue) == []
    ensures r.Some? ==> r.value == ScanLocations(catalogue) + ScanLocations(ScanSandboxedApps(containers))
  {
    var valid := ScanLocations(catalogue);
    if valid == [] then None
    else
      var sandbox := ScanSandboxedApps(containers);
      if sandbox != [] then Some(valid + ScanLocations(sandbox)) else Some(valid)
  }

  /** The menu opens exactly when some catalogue location is non-empty; the
      containers are not looked at otherwise, however full their caches are. */
  lemma SetupOpensMenu(catalogue: seq<Entry>, containers: seq<CacheScan.Container>)
    ensures Setup(catalogue, containers).None? <==> forall e :: e in catalogue ==> !Kept(e)
    ensures Setup(catalogue, containers).Some? ==> AllFound(Setup(catalogue, containers).value)
  {
    ScanLocationsSpec(catalogue);
    ScanLocationsSpec(ScanSandboxedApps(containers));
    var a := ScanLocations(catalogue);
    var b := ScanLocations(ScanSandboxedApps(containers));
    assert forall i :: |a| <= i < |a + b| ==> (a + b)[i] == b[i - |a|];
  }

  // ---------------------------------------------------------------------
  // Commands.

  /** What one line typed at the prompt asks for. `Toggle` and `ToggleRange`
      carry the numbers as typed (1-based); `Nothing` is input the menu ignores. */
  datatype Command = Quit | SelectAll | SelectNone | Delete | Toggle(n: int) | ToggleRange(first: int, last: int) | Nothing

  /** The choice after `strip().lower()`. */
  function Normalize(raw: string): (r: string)
    ensures IsLowerCase(r) && Trimmed(r)
  {
    LowerTrimmed(Strip(raw));
    Lower(Strip(raw))
  }

  /** The branches of the menu loop, in their order, on the normalized
      choice: the four letters, `isdigit`, then a range. */
  function ParseChoice(choice: string): (c: Command)
    ensures c.Toggle? ==> c.n >= 0
  {
    if choice == "q" then Quit
    else if choice == "a" then SelectAll
    else if choice == "n" then SelectNone
    else if choice == "d" then Delete
    else if IsDigits(choice) then Toggle(DigitsValue(choice))
    else if '-' in choice then ParseRangeChoice(choice)
    else Nothing
  }

  /** A range: split on '-' into exactly two pieces, each read by `int`; a
      failed unpacking or conversion raises ValueError, which the loop ignores. */
  function ParseRangeChoice(choice: string): (c: Command)
    ensures c.ToggleRange? || c == Nothing
    ensures c.ToggleRange? <==> var pieces := Split(choice, '-');
              |pieces| == 2 && PyInt(pieces[0]).Some? && PyInt(pieces[1]).Some?
  {
    var pieces := Split(choice, '-');
    if |pieces| != 2 then Nothing
    else
      match (PyInt(pieces[0]), PyInt(pieces[1]))
      case (Some(first), Some(last)) => ToggleRange(first, last)
      case _ => Nothing
  }

  function ParseCommand(raw: string): (c: Command)
    ensures c.Toggle? ==> c.n >= 0
  {
    ParseChoice(Normalize(raw))
  }

  /** Normalizing a second time changes nothing. */
  lemma NormalizeIdempotent(raw: string)
    ensures Normalize(Normalize(raw)) == Normalize(raw)
  {
    var t := Normalize(raw);
    StripStripped(t);
    assert Lower(t) == t;
  }

  /** Case and outer white space do not matter. */
  lemma ParseCommandNormalized(raw: string)
    ensures ParseCommand(Normalize(raw)) == ParseCommand(raw)
  {
    NormalizeIdempotent(raw);
  }

  lemma DigitsNormalized(n: nat)
    ensures Normalize(NatToString(n)) == NatToString(n)
  {
    var s := NatToString(n);
    assert Trimmed(s);
    StripStripped(s);
    assert IsLowerCase(s);
  }

  /** Typing a number asks to toggle that line. */
  lemma ParseNumber(n: nat)
    ensures ParseCommand(NatToString(n)) == Toggle(n)
  {
    DigitsNormalized(n);
    var s := NatToString(n);
    assert IsDigit(s[0]);
    assert ParseChoice(s) == Toggle(n) by {
      ParseNatToString(n);
    }
  }

  /** "<first>-<last>" reads back as the two numbers. */
  lemma RangeChoice(first: nat, last: nat)
    ensures ParseRangeChoice(NatToString(first) + ['-'] + NatToString(last)) == ToggleRange(first, last)
  {
    var a := NatToString(first);
    var b := NatToString(last);
    assert '-' !in a && '-' !in b by {
      assert forall i :: 0 <= i < |a| ==> IsDigit(a[i]);
      assert forall i :: 0 <= i < |b| ==> IsDigit(b[i]);
    }
    SplitNoSeparator(b, '-');
    SplitConcat(a, '-', b);
    PyIntOfNatToString(first);
    PyIntOfNatToString(last);
  }

  /** Typing "<first>-<last>" asks to toggle that range. */
  lemma ParseRange(first: nat, last: nat)
    ensures ParseCommand(NatToString(first) + "-" + NatToString(last)) == ToggleRange(first, last)
  {
    var a := NatToString(first);
    var b := NatToString(last);
    var s := a + "-" + b;
    assert s == a + ['-'] + b;
    assert Trimmed(s) by {
      assert s[0] == a[0];
      assert s[|s| - 1] == b[|b| - 1];
    }
    StripStripped(s);
    assert IsLowerCase(s) by {
      assert forall i :: 0 <= i < |s| ==> s[i] == '-' || IsDigit(s[i]);
    }
    assert Normalize(s) == s;
    assert s[|a|] == '-';
    assert '-' in s && !IsDigits(s);
    assert IsDigit(s[0]);
    RangeChoice(first, last);
    assert ParseChoice(s) == ParseRangeChoice(s);
  }

  // ---------------------------------------------------------------------
  // The selection.

  /** A location with its selection mark cleared: what the menu never changes. */
  function Unmarked(l: Location): Location {
    l.(selected := false)
  }

  function Flip(l: Location): (r: Location)
    ensures Unmarked(r) == Unmarked(l) && r.selected == !l.selected
  {
    l.(selected := !l.selected)
  }

  /** Every location marked v (`a` and `n`). */
  function MarkAll(locs: seq<Location>, v: bool): (r: seq<Location>)
    ensures |r| == |locs|
    ensures forall i :: 0 <= i < |r| ==> r[i].selected == v && Unmarked(r[i]) == Unmarked(locs[i])
  {
    seq(|locs|, i requires 0 <= i < |locs| => locs[i].(selected := v))
  }

  /** The range loop `for i in range(lo, hi)`, flipping one mark per step. */
  function FlipSpan(locs: seq<Location>, lo: nat, hi: nat): (r: seq<Location>)
    requires lo <= hi <= |locs|
    ensures |r| == |locs|
    ensures forall i :: 0 <= i < |r| ==> Unmarked(r[i]) == Unmarked(locs[i])
    ensures forall i :: 0 <= i < |r| ==> r[i].selected == (if lo <= i < hi then !locs[i].selected else locs[i].selected)
    decreases hi - lo
  {
    if lo == hi then locs else FlipSpan(locs[lo := Flip(locs[lo])], lo + 1, hi)
  }

  /** Whether a toggle command flips line i (0-based) of a menu of n lines. */
  predicate Flips(c: Command, n: nat, i: int) {
    match c
    case Toggle(k) => 1 <= k <= n && i == k - 1
    case ToggleRange(first, last) => 1 <= first <= last <= n && first - 1 <= i < last
    case _ => false
  }

  /** The effect of a command on the menu's locations. Out-of-range numbers
      and reversed ranges change nothing. */
  function Apply(locs: seq<Location>, c: Command): (r: seq<Location>)
    ensures |r| == |locs|
    ensures forall i :: 0 <= i < |r| ==> Unmarked(r[i]) == Unmarked(locs[i])
    ensures c == SelectAll ==> forall i :: 0 <= i < |r| ==> r[i].selected
    ensures c == SelectNone ==> forall i :: 0 <= i < |r| ==> !r[i].selected
    ensures c.Toggle? || c.ToggleRange? ==>
              forall i :: 0 <= i < |r| ==> (r[i].selected != locs[i].selected <==> Flips(c, |locs|, i))
    ensures c == Quit || c == Delete || c == Nothing ==> r == locs
  {
    match c
    case SelectAll => MarkAll(locs, true)
    case SelectNone => MarkAll(locs, false)
    case Toggle(n) => if 1 <= n <= |locs| then locs[n - 1 := Flip(locs[n - 1])] else locs
    case ToggleRange(first, last) => if 1 <= first <= last <= |locs| then FlipSpan(locs, first - 1, last) else locs
    case _ => locs
  }

  /** Toggling the same line or range twice restores the selection. */
  lemma ToggleInvolution(locs: seq<Location>, c: Command)
    requires c.Toggle? || c.ToggleRange?
    ensures Apply(Apply(locs, c), c) == locs
  {
    var r := Apply(Apply(locs, c), c);
    forall i | 0 <= i < |locs|
      ensures r[i] == locs[i]
    {
      assert Unmarked(r[i]) == Unmarked(locs[i]);
    }
  }

  /** A one-line range is the same as typing that line's number. */
  lemma SingleRangeIsToggle(locs: seq<Location>, n: int)
    ensures Apply(locs, ToggleRange(n, n)) == Apply(locs, Toggle(n))
  {
    var a := Apply(locs, ToggleRange(n, n));
    var b := Apply(locs, Toggle(n));
    forall i | 0 <= i < |locs|
      ensures a[i] == b[i]
    {
      assert Unmarked(a[i]) == Unmarked(b[i]);
    }
  }

  /** "0", a number past the end and a reversed range change nothing. */
  lemma OutOfRangeIgnored(locs: seq<Location>, n: int, first: int, last: int)
    requires !(1 <= n <= |locs|) && first > last
    ensures Apply(locs, Toggle(n)) == locs
    ensures Apply(locs, ToggleRange(first, last)) == locs
  {
  }

  // ---------------------------------------------------------------------
  // The summary and the loop.

  function Tally(l: Location): int { if l.selected then 1 else 0 }
  function SelectedBytes(l: Location): int { if l.selected then l.size else 0 }
  function SizeOf(l: Location): int { l.size }
  predicate IsSelected(l: Location) { l.selected }
  function Itself(l: Location): Location { l }

  /** The summary line: number of selected locations. */
  function SelectedCount(locs: seq<Location>): (r: int)
    ensures r >= 0
  {
    SumBy(locs, Tally)
  }

  /** The summary line: total size of the selected locations. */
  function SelectedSize(locs: seq<Location>): (r: int)
    ensures r >= 0
  {
    SumBy(locs, SelectedBytes)
  }

  /** `[loc for loc in locations if loc.selected]`, what `clear_selected` cleans. */
  function Selected(locs: seq<Location>): (r: seq<Location>)
    ensures |r| <= |locs|
  {
    FilterMap(locs, IsSelected, Itself)
  }

  /** The summary counts and sums exactly the locations a deletion would clean. */
  lemma {:induction false} SummaryIsSelection(locs: seq<Location>)
    ensures SelectedCount(locs) == |Selected(locs)|
    ensures SelectedSize(locs) == SumBy(Selected(locs), SizeOf)
    decreases |locs|
  {
    if |locs| > 0 {
      SummaryIsSelection(locs[1..]);
      var t := Selected(locs[1..]);
      if locs[0].selected {
        assert Selected(locs) == [locs[0]] + t;
        assert ([locs[0]] + t)[1..] == t;
      } else {
        assert Selected(locs) == t;
      }
    }
  }

  /** Toggling one line moves the count by one. */
  lemma ToggleCount(locs: seq<Location>, n: int)
    requires 1 <= n <= |locs|
    ensures SelectedCount(Apply(locs, Toggle(n))) == SelectedCount(locs) + (if locs[n - 1].selected then -1 else 1)
  {
    SumByUpdate(locs, n - 1, Flip(locs[n - 1]), Tally);
  }

  lemma SelectAllCount(locs: seq<Location>)
    ensures SelectedCount(Apply(locs, SelectAll)) == |locs|
    ensures SelectedCount(Apply(locs, SelectNone)) == 0
  {
    AllTallied(Apply(locs, SelectAll), true);
    AllTallied(Apply(locs, SelectNone), false);
  }

  lemma {:induction false} AllTallied(locs: seq<Location>, v: bool)
    requires forall i :: 0 <= i < |locs| ==> locs[i].selected == v
    ensures SumBy(locs, Tally) == if v then |locs| else 0
    decreases |locs|
  {
    if |locs| > 0 {
      AllTallied(locs[1..], v);
    }
  }

  /** How one pass of the loop ends. */
  datatype Outcome = Continue(locs: seq<Location>) | Cancelled | Clean(chosen: seq<Location>)

  /** One line typed at the prompt, and the answer to the confirmation it
      may raise. */
  datatype Input = Input(text: string, confirmed: bool)

  /** One pass of the menu loop. `d` with nothing selected only warns; an
      unconfirmed `d` goes back to the menu. */
  function Step(locs: seq<Location>, input: Input): (r: Outcome)
    ensures r.Cancelled? <==> ParseCommand(input.text) == Quit
    ensures r.Clean? <==> ParseCommand(input.text) == Delete && input.confirmed && Selected(locs) != []
    ensures r.Clean? ==> r.chosen == Selected(locs)
    ensures r.Continue? ==> r.locs == Apply(locs, ParseCommand(input.text))
  {
    var c := ParseCommand(input.text);
    if c == Quit then Cancelled
    else if c == Delete then
      SummaryIsSelection(locs);
      if SelectedCount(locs) == 0 then Continue(locs)
      else if input.confirmed then Clean(Selected(locs))
      else Continue(locs)
    else Continue(Apply(locs, c))
  }

  /** The menu loop over the lines typed, until it quits or cleans. Running
      out of input leaves the menu open. */
  function Session(locs: seq<Location>, inputs: seq<Input>): (r: Outcome)
    ensures r.Continue? ==> |r.locs| == |locs|
    ensures r.Continue? ==> forall i :: 0 <= i < |locs| ==> Unmarked(r.locs[i]) == Unmarked(locs[i])
    ensures r.Clean? ==> r.chosen != [] && forall l :: l in r.chosen ==> l.selected
    ensures r.Clean? ==> |r.chosen| <= |locs|
    ensures r.Clean? ==> forall l :: l in r.chosen ==> exists i :: 0 <= i < |locs| && Unmarked(l) == Unmarked(locs[i])
    ensures r.Clean? ==> exists k :: 0 <= k < |inputs| && ParseCommand(inputs[k].text) == Delete && inputs[k].confirmed
    decreases |inputs|
  {
    if inputs == [] then Continue(locs)
    else
      match Step(locs, inputs[0])
      case Continue(next) =>
        var r := Session(next, inputs[1..]);
        ListedLocations(locs, next, r);
        assert r.Clean? ==> exists k :: 0 <= k < |inputs| && ParseCommand(inputs[k].text) == Delete && inputs[k].confirmed by {
          if r.Clean? {
            var k :| 0 <= k < |inputs[1..]| && ParseCommand(inputs[1..][k].text) == Delete && inputs[1..][k].confirmed;
            assert inputs[k + 1] == inputs[1..][k];
          }
        }
        r
      case Cancelled => Cancelled
      case Clean(chosen) =>
        FilterMapMembers(locs, IsSelected, Itself);
        assert forall l :: l in chosen ==> exists i :: 0 <= i < |locs| && Unmarked(l) == Unmarked(locs[i]) by {
          forall l | l in chosen
            ensures exists i :: 0 <= i < |locs| && Unmarked(l) == Unmarked(locs[i])
          {
            var i :| 0 <= i < |locs| && locs[i] == l;
          }
        }
        Clean(chosen)
  }

  /** Whatever a session over relabelled lines cleans is one of the
      original lines, up to its mark. */
  lemma ListedLocations(locs: seq<Location>, next: seq<Location>, r: Outcome)
    requires |next| == |locs| && forall i :: 0 <= i < |locs| ==> Unmarked(next[i]) == Unmarked(locs[i])
    requires r.Clean? ==> |r.chosen| <= |next|
    requires r.Clean? ==> forall l :: l in r.chosen ==> exists i :: 0 <= i < |next| && Unmarked(l) == Unmarked(next[i])
    ensures r.Clean? ==> |r.chosen| <= |locs|
    ensures r.Clean? ==> forall l :: l in r.chosen ==> exists i :: 0 <= i < |locs| && Unmarked(l) == Unmarked(locs[i])
  {
    if r.Clean? {
      forall l | l in r.chosen
        ensures exists i :: 0 <= i < |locs| && Unmarked(l) == Unmarked(locs[i])
      {
        var i :| 0 <= i < |next| && Unmarked(l) == Unmarked(next[i]);
        assert Unmarked(l) == Unmarked(locs[i]);
      }
    }
  }

  /** Typing `q` first cancels whatever comes after. */
  lemma QuitFirst(locs: seq<Location>, rest: seq<Input>, confirmed: bool)
    ensures Session(locs, [Input("q", confirmed)] + rest) == Cancelled
  {
    var inputs := [Input("q", confirmed)] + rest;
    assert ParseCommand("q") == Quit by {
      StripStripped("q");
      assert Lower("q") == "q";
    }
    assert inputs[0] == Input("q", confirmed);
    assert Step(locs, inputs[0]) == Cancelled;
  }
}
