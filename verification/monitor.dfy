/** The bookkeeping around the system-statistics sample (`system_stats`):
    the five history series that feed the charts, each trimmed to the most
    recent 60 points, and the uptime shown as days, hours and minutes.
    The sampled values themselves come from the operating system and are
    inputs here. */
module Monitor {
  import opened Text

  const MaxHistoryPoints: nat := 60

  /** One statistics sample: the values appended to the five series. */
  datatype Sample = Sample(cpu: real, memory: real, bytesRecv: nat, bytesSent: nat, time: real)

  datatype History = History(
    cpu: seq<real>,
    memory: seq<real>,
    networkIn: seq<nat>,
    networkOut: seq<nat>,
    timestamps: seq<real>)

  const EmptyHistory: History := History([], [], [], [], [])

  /** `s[-60:]` when the series is longer than 60. */
  function Trim<T>(s: seq<T>): (r: seq<T>)
    ensures |r| == if |s| > MaxHistoryPoints then MaxHistoryPoints else |s|
    ensures r == s[|s| - |r|..]
  {
    if |s| > MaxHistoryPoints then s[|s| - MaxHistoryPoints..] else s
  }

  /** Trimming after every append keeps the same window as trimming once. */
  lemma TrimAppend<T>(a: seq<T>, x: T)
    ensures Trim(Trim(a) + [x]) == Trim(a + [x])
  {
    var t := Trim(a);
    assert (t + [x])[|t + [x]| - |Trim(t + [x])|..] == (a + [x])[|a + [x]| - |Trim(a + [x])|..];
  }

  /** Append one sample to every series, then trim every series. */
  function Record(h: History, x: Sample): (r: History)
    ensures Aligned(h) ==> Aligned(r)
    ensures Bounded(r)
    ensures EndsWith(r.cpu, x.cpu) && EndsWith(r.memory, x.memory) && EndsWith(r.timestamps, x.time)
    ensures EndsWith(r.networkIn, x.bytesRecv) && EndsWith(r.networkOut, x.bytesSent)
  {
    TrimPush(h.cpu, x.cpu);
    TrimPush(h.memory, x.memory);
    TrimPush(h.networkIn, x.bytesRecv);
    TrimPush(h.networkOut, x.bytesSent);
    TrimPush(h.timestamps, x.time);
    History(
      Trim(h.cpu + [x.cpu]),
      Trim(h.memory + [x.memory]),
      Trim(h.networkIn + [x.bytesRecv]),
      Trim(h.networkOut + [x.bytesSent]),
      Trim(h.timestamps + [x.time]))
  }

  /** The series is not empty and its last point is v. */
  predicate EndsWith<T(==)>(s: seq<T>, v: T) {
    |s| > 0 && s[|s| - 1] == v
  }

  /** A pushed point survives the trim as the last one. */
  lemma TrimPush<T>(s: seq<T>, x: T)
    ensures EndsWith(Trim(s + [x]), x)
    ensures |Trim(s + [x])| == if |s| >= MaxHistoryPoints then MaxHistoryPoints else |s| + 1
  {
    var t := s + [x];
    assert t[|t| - 1] == x;
  }

  /** The five series have one point per sample. */
  predicate Aligned(h: History) {
    |h.cpu| == |h.memory| == |h.networkIn| == |h.networkOut| == |h.timestamps|
  }

  predicate Bounded(h: History) {
    |h.cpu| <= MaxHistoryPoints && |h.memory| <= MaxHistoryPoints && |h.networkIn| <= MaxHistoryPoints &&
    |h.networkOut| <= MaxHistoryPoints && |h.timestamps| <= MaxHistoryPoints
  }

  /** The history after recording the samples in order, from server start. */
  function Replay(samples: seq<Sample>): History
    decreases |samples|
  {
    if |samples| == 0 then EmptyHistory
    else Record(Replay(samples[..|samples| - 1]), samples[|samples| - 1])
  }

  /** One field of every sample, in order. */
  function Column<T>(samples: seq<Sample>, field: Sample -> T): (r: seq<T>)
    ensures |r| == |samples|
    ensures forall i :: 0 <= i < |samples| ==> r[i] == field(samples[i])
    decreases |samples|
  {
    if |samples| == 0 then []
    else Column(samples[..|samples| - 1], field) + [field(samples[|samples| - 1])]
  }

  function Cpu(x: Sample): real { x.cpu }
  function Memory(x: Sample): real { x.memory }
  function BytesRecv(x: Sample): nat { x.bytesRecv }
  function BytesSent(x: Sample): nat { x.bytesSent }
  function Time(x: Sample): real { x.time }

  /** Recording one more sample extends one column by one value. */
  lemma ColumnStep<T>(samples: seq<Sample>, field: Sample -> T, window: seq<T>)
    requires |samples| > 0 && window == Trim(Column(samples[..|samples| - 1], field))
    ensures Trim(window + [field(samples[|samples| - 1])]) == Trim(Column(samples, field))
  {
    TrimAppend(Column(samples[..|samples| - 1], field), field(samples[|samples| - 1]));
  }

  /** The history holds exactly the most recent samples (at most 60), in order. */
  lemma {:induction false} ReplayKeepsLatest(samples: seq<Sample>)
    ensures Replay(samples) == History(
              Trim(Column(samples, Cpu)), Trim(Column(samples, Memory)),
              Trim(Column(samples, BytesRecv)), Trim(Column(samples, BytesSent)),
              Trim(Column(samples, Time)))
    decreases |samples|
  {
    var n := |samples|;
    if n > 0 {
      var h := Replay(samples[..n - 1]);
      ReplayKeepsLatest(samples[..n - 1]);
      ColumnStep(samples, Cpu, h.cpu);
      ColumnStep(samples, Memory, h.memory);
      ColumnStep(samples, BytesRecv, h.networkIn);
      ColumnStep(samples, BytesSent, h.networkOut);
      ColumnStep(samples, Time, h.timestamps);
    }
  }

  // ---------------------------------------------------------------------
  // Uptime.

  /** `divmod` by a day, an hour and a minute of whole seconds. */
  function Breakdown(seconds: nat): (r: (nat, nat, nat))
    ensures r.1 < 24 && r.2 < 60
    ensures r.0 * 86400 + r.1 * 3600 + r.2 * 60 <= seconds < r.0 * 86400 + r.1 * 3600 + r.2 * 60 + 60
  {
    var days := seconds / 86400;
    var hours := (seconds % 86400) / 3600;
    var minutes := (seconds % 86400 % 3600) / 60;
    (days, hours, minutes)
  }

  /** Multiples of k below one another are at least k apart. */
  lemma {:induction false} MulStep(a: int, b: int, k: nat)
    ensures a < b ==> a * k + k <= b * k
    decreases b - a
  {
    if a < b {
      MulStep(a, b - 1, k);
      assert (b - 1) * k + k == b * k;
    }
  }

  /** The breakdown is the only one with hours below 24 and minutes below 60. */
  lemma BreakdownUnique(seconds: nat, d: nat, h: nat, m: nat)
    requires h < 24 && m < 60
    requires d * 86400 + h * 3600 + m * 60 <= seconds < d * 86400 + h * 3600 + m * 60 + 60
    ensures Breakdown(seconds) == (d, h, m)
  {
    var (d', h', m') := Breakdown(seconds);
    var a := d * 1440 + h * 60 + m;
    var b := d' * 1440 + h' * 60 + m';
    assert a * 60 <= seconds < a * 60 + 60;
    assert b * 60 <= seconds < b * 60 + 60;
    MulStep(a, b, 60);
    MulStep(b, a, 60);
    assert h * 60 + m < 1440 && h' * 60 + m' < 1440;
    MulStep(d, d', 1440);
    MulStep(d', d, 1440);
    MulStep(h, h', 60);
    MulStep(h', h, 60);
  }

  /** "Dd Hh Mm", dropping leading zero units but always showing minutes. */
  function UptimeText(seconds: nat): string {
    var (days, hours, minutes) := Breakdown(seconds);
    Render(days, hours, minutes)
  }

  function Render(days: nat, hours: nat, minutes: nat): string {
    if days > 0 then NatToString(days) + "d " + NatToString(hours) + "h " + NatToString(minutes) + "m"
    else if hours > 0 then NatToString(hours) + "h " + NatToString(minutes) + "m"
    else NatToString(minutes) + "m"
  }

  /** Reads one "<digits><unit>" piece. */
  function ParseUnit(piece: string, unit: char): Option<nat> {
    if |piece| >= 2 && piece[|piece| - 1] == unit then ParseNat(piece[..|piece| - 1]) else None
  }

  /** Reads an uptime text back as days, hours and minutes, a missing
      leading unit reading as zero. */
  function ParseUptime(text: string): Option<(nat, nat, nat)> {
    ParsePieces(Split(text, ' '))
  }

  /** Reads the space-separated pieces of an uptime text. */
  function ParsePieces(pieces: seq<string>): Option<(nat, nat, nat)> {
    if |pieces| == 3 then
      match (ParseUnit(pieces[0], 'd'), ParseUnit(pieces[1], 'h'), ParseUnit(pieces[2], 'm'))
      case (Some(d), Some(h), Some(m)) => Some((d, h, m))
      case _ => None
    else if |pieces| == 2 then
      match (ParseUnit(pieces[0], 'h'), ParseUnit(pieces[1], 'm'))
      case (Some(h), Some(m)) => Some((0, h, m))
      case _ => None
    else if |pieces| == 1 then
      match ParseUnit(pieces[0], 'm')
      case Some(m) => Some((0, 0, m))
      case None => None
    else None
  }

  /** The seconds a days, hours and minutes triple stands for. */
  function Seconds(t: (nat, nat, nat)): nat {
    t.0 * 86400 + t.1 * 3600 + t.2 * 60
  }

  lemma ParseUnitOf(n: nat, unit: char)
    ensures ParseUnit(NatToString(n) + [unit], unit) == Some(n)
  {
    var p := NatToString(n) + [unit];
    assert p[..|p| - 1] == NatToString(n);
    ParseNatToString(n);
  }

  lemma NoSpaceInNumber(n: nat)
    ensures ' ' !in NatToString(n)
  {
    var s := NatToString(n);
    assert forall i :: 0 <= i < |s| ==> IsDigit(s[i]);
  }

  lemma NoSpaceInPiece(n: nat, unit: char)
    requires unit != ' '
    ensures ' ' !in NatToString(n) + [unit]
  {
    NoSpaceInNumber(n);
  }

  /** Splitting at the spaces between space-free pieces gives the pieces back. */
  lemma SplitTwo(a: string, b: string)
    requires ' ' !in a && ' ' !in b
    ensures Split(a + [' '] + b, ' ') == [a, b]
  {
    SplitNoSeparator(b, ' ');
    SplitConcat(a, ' ', b);
  }

  lemma SplitThree(a: string, b: string, c: string)
    requires ' ' !in a && ' ' !in b && ' ' !in c
    ensures Split(a + [' '] + (b + [' '] + c), ' ') == [a, b, c]
  {
    SplitTwo(b, c);
    SplitConcat(a, ' ', b + [' '] + c);
  }

  /** Space-free pieces with the right units read back as their values. */
  lemma ParseThree(dp: string, hp: string, mp: string, d: nat, h: nat, m: nat)
    requires ' ' !in dp && ' ' !in hp && ' ' !in mp
    requires ParseUnit(dp, 'd') == Some(d) && ParseUnit(hp, 'h') == Some(h) && ParseUnit(mp, 'm') == Some(m)
    ensures |Split(dp + [' '] + (hp + [' '] + mp), ' ')| == 3
    ensures ParseUptime(dp + [' '] + (hp + [' '] + mp)) == Some((d, h, m))
  {
    SplitThree(dp, hp, mp);
  }

  lemma ParseTwo(hp: string, mp: string, h: nat, m: nat)
    requires ' ' !in hp && ' ' !in mp
    requires ParseUnit(hp, 'h') == Some(h) && ParseUnit(mp, 'm') == Some(m)
    ensures |Split(hp + [' '] + mp, ' ')| == 2
    ensures ParseUptime(hp + [' '] + mp) == Some((0, h, m))
  {
    SplitTwo(hp, mp);
  }

  /** A number followed by its unit letter: no space, and it reads back. */
  lemma UnitPiece(n: nat, unit: char)
    requires unit != ' '
    ensures ' ' !in NatToString(n) + [unit]
    ensures ParseUnit(NatToString(n) + [unit], unit) == Some(n)
  {
    NoSpaceInPiece(n, unit);
    ParseUnitOf(n, unit);
  }

  lemma ThreePieceText(a: string, b: string, c: string)
    ensures a + "d " + b + "h " + c + "m" == (a + ['d']) + [' '] + ((b + ['h']) + [' '] + (c + ['m']))
  {
  }

  lemma TwoPieceText(b: string, c: string)
    ensures b + "h " + c + "m" == (b + ['h']) + [' '] + (c + ['m'])
  {
  }

  /** Three pieces "<d>d <h>h <m>m" read back as their values. */
  lemma ParseDaysHoursMinutes(d: nat, h: nat, m: nat)
    ensures |Split(NatToString(d) + "d " + NatToString(h) + "h " + NatToString(m) + "m", ' ')| == 3
    ensures ParseUptime(NatToString(d) + "d " + NatToString(h) + "h " + NatToString(m) + "m") == Some((d, h, m))
  {
    UnitPiece(d, 'd');
    UnitPiece(h, 'h');
    UnitPiece(m, 'm');
    ThreePieceText(NatToString(d), NatToString(h), NatToString(m));
    ParseThree(NatToString(d) + ['d'], NatToString(h) + ['h'], NatToString(m) + ['m'], d, h, m);
  }

  /** Two pieces "<h>h <m>m" read back as their values, with no days. */
  lemma ParseHoursMinutes(h: nat, m: nat)
    ensures |Split(NatToString(h) + "h " + NatToString(m) + "m", ' ')| == 2
    ensures ParseUptime(NatToString(h) + "h " + NatToString(m) + "m") == Some((0, h, m))
  {
    UnitPiece(h, 'h');
    UnitPiece(m, 'm');
    TwoPieceText(NatToString(h), NatToString(m));
    ParseTwo(NatToString(h) + ['h'], NatToString(m) + ['m'], h, m);
  }

  /** One piece "<m>m" reads back as its minutes, with no days or hours. */
  lemma ParseMinutes(m: nat)
    ensures |Split(NatToString(m) + "m", ' ')| == 1
    ensures ParseUptime(NatToString(m) + "m") == Some((0, 0, m))
  {
    UnitPiece(m, 'm');
    SplitNoSeparator(NatToString(m) + "m", ' ');
  }

  /** The whole minutes of the breakdown are the seconds less the partial minute. */
  lemma BreakdownTotal(seconds: nat)
    ensures var (d, h, m) := Breakdown(seconds); d * 86400 + h * 3600 + m * 60 == seconds - seconds % 60
  {
    var (d, h, m) := Breakdown(seconds);
    var a := d * 1440 + h * 60 + m;
    assert a * 60 <= seconds < a * 60 + 60;
    assert seconds == a * 60 + seconds % 60;
  }

  /** A rendered uptime has three pieces when there are days, two when
      there are hours but no days, one otherwise, and reads back as exactly
      the days, hours and minutes it was rendered from. */
  lemma RenderRoundTrip(d: nat, h: nat, m: nat)
    ensures |Split(Render(d, h, m), ' ')| == if d > 0 then 3 else if h > 0 then 2 else 1
    ensures ParseUptime(Render(d, h, m)) == Some((d, h, m))
  {
    if d > 0 {
      ParseDaysHoursMinutes(d, h, m);
    } else if h > 0 {
      ParseHoursMinutes(h, m);
    } else {
      ParseMinutes(m);
    }
  }

  /** The uptime text names the uptime to the minute: reading it back gives
      the breakdown, which stands for the seconds with the partial minute
      dropped. */
  lemma UptimeRoundTrip(seconds: nat)
    ensures ParseUptime(UptimeText(seconds)) == Some(Breakdown(seconds))
    ensures Seconds(ParseUptime(UptimeText(seconds)).value) == seconds - seconds % 60
  {
    var b := Breakdown(seconds);
    BreakdownTotal(seconds);
    RenderRoundTrip(b.0, b.1, b.2);
  }
}
