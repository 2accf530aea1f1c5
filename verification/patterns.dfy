/** Log patterns: what a pattern string says to print, read directly, and the compiled list of
    formatters that prints the same. */
module Patterns {
  import opened Bits

  datatype Side = Left | Right | Center

  datatype Padding = Padding(width: nat, side: Side, truncate: bool, enabled: bool)

  const NO_PADDING := Padding(0, Left, false, false)

  const MAX_WIDTH: nat := 64

  datatype Tm = Tm(sec: int, min: int, hour: int, mday: int, mon: int, year: int, isdst: int)

  const ZERO_TM := Tm(0, 0, 0, 0, 0, 0, 0)

  datatype Source = NoSource | Source(filename: string, basename: string, funcname: string)

  /** duration_cast<seconds> of nanoseconds since the epoch: truncated towards zero. */
  function SecsOf(time: int): int {
    if time >= 0 then time / 1_000_000_000 else -(-time / 1_000_000_000)
  }

  /** The second does not change within a second, on either side of the epoch. */
  lemma SecsExact(time: int)
    ensures time >= 0 ==> 1_000_000_000 * SecsOf(time) <= time < 1_000_000_000 * (SecsOf(time) + 1)
    ensures time <= 0 ==> 1_000_000_000 * (SecsOf(time) - 1) < time <= 1_000_000_000 * SecsOf(time)
  {
  }

  /** A log message. `time` counts nanoseconds since the epoch, `mdc` is the calling thread's
      diagnostic context in key order, `context` stands for thread and process ids and the line. */
  datatype LogMsg = LogMsg(time: int, name: string, level: string, shortLevel: string, payload: string,
                           source: Source, mdc: seq<(string, string)>, context: nat)
  {
    function Secs(): int { SecsOf(time) }
  }

  /** What the library or the platform gives: the broken-down time of a second, its offset from
      UTC in minutes, the text of the flags whose text is not of interest here (and the size they
      declare for it), and the user's own flags. */
  datatype Env = Env(clock: int -> Tm,
                     offset: Tm -> int,
                     datetime: Tm -> string,
                     fullTail: LogMsg -> string,
                     timed: (char, LogMsg, Tm) -> string,
                     timedSize: (char, LogMsg, Tm) -> nat,
                     plain: (char, LogMsg) -> string,
                     plainSize: (char, LogMsg) -> nat,
                     custom: set<char>,
                     customText: (char, Padding, LogMsg) -> string)

  /** Three kinds of formatters remember something between messages: the full one the text of the
      last second, the zone its offset and when it was last asked for, the elapsed ones the time
      of the last message. */
  datatype Formatter =
    | Chars(text: string)
    | Field(flag: char, pad: Padding)
    | Custom(flag: char, pad: Padding)
    | Color
    | Full(cacheSecs: int, cached: string)
    | Zone(pad: Padding, lastUpdate: int, offset: int)
    | Elapsed(flag: char, pad: Padding, last: int)
    | Mdc(pad: Padding)

  /** What those formatters have to show for one message. */
  datatype Shown = Shown(datetime: string, offset: int, since: int)

  // ----- flags -----

  const TIME_FLAGS := {'a', 'A', 'b', 'h', 'B', 'c', 'C', 'Y', 'D', 'x', 'm', 'd', 'H', 'I', 'M', 'S', 'p', 'r', 'R',
                       'T', 'X'}
  const EXACT_FLAGS := {'n', 'l', 'L', 'v', 's', 'g', '!'}
  const OTHER_FLAGS := {'t', 'e', 'f', 'F', 'E', 'P', '@', '#'}
  const ELAPSED_FLAGS := {'u', 'i', 'o', 'O'}

  /** The text of a flag whose declared size is its exact size. */
  function ExactText(flag: char, msg: LogMsg): string
    requires flag in EXACT_FLAGS
  {
    match flag
    case 'n' => msg.name
    case 'l' => msg.level
    case 'L' => msg.shortLevel
    case 'v' => msg.payload
    case 's' => if msg.source.NoSource? then "" else msg.source.basename
    case 'g' => if msg.source.NoSource? then "" else msg.source.filename
    case '!' => if msg.source.NoSource? then "" else msg.source.funcname
  }

  function FieldText(env: Env, flag: char, msg: LogMsg, tm: Tm): string {
    if flag in EXACT_FLAGS then ExactText(flag, msg)
    else if flag in TIME_FLAGS then env.timed(flag, msg, tm)
    else env.plain(flag, msg)
  }

  /** The size the formatter of a flag declares to its padder. */
  function FieldSize(env: Env, flag: char, msg: LogMsg, tm: Tm): nat {
    if flag in EXACT_FLAGS then |ExactText(flag, msg)|
    else if flag in TIME_FLAGS then env.timedSize(flag, msg, tm)
    else env.plainSize(flag, msg)
  }

  // ----- texts of numbers, offsets and the MDC -----

  function DigitChar(d: nat): char
    requires d < 10
  {
    '0' + d as char
  }

  function Decimal(n: nat): (s: string)
    ensures s != ""
  {
    if n < 10 then [DigitChar(n)] else Decimal(n / 10) + [DigitChar(n % 10)]
  }

  function Pad2(n: nat): string {
    if n < 100 then [DigitChar(n / 10), DigitChar(n % 10)] else Decimal(n)
  }

  function Magnitude(n: int): nat { if n < 0 then -n else n }

  /** An offset from UTC as +HH:MM or -HH:MM. */
  function ZoneText(minutes: int): string {
    [if minutes < 0 then '-' else '+'] + Pad2(Magnitude(minutes) / 60) + ":" + Pad2(Magnitude(minutes) % 60)
  }

  /** Different offsets have different texts; below a hundred hours the text has the declared
      six characters. */
  lemma ZoneTextExact(minutes: int, other: int)
    ensures ZoneText(minutes) == ZoneText(other) <==> minutes == other
    ensures -6000 < minutes < 6000 ==> |ZoneText(minutes)| == 6
  {
    hide ZoneText;
    ZoneParts(minutes);
    ZoneParts(other);
    if ZoneText(minutes) == ZoneText(other) {
      Pad2Exact(Magnitude(minutes) / 60, Magnitude(other) / 60);
      Pad2Exact(Magnitude(minutes) % 60, Magnitude(other) % 60);
    }
  }

  lemma ZoneParts(minutes: int)
    ensures var s, m := ZoneText(minutes), Magnitude(minutes);
            && |s| >= 4 && s[0] == (if minutes < 0 then '-' else '+')
            && s[1..|s| - 3] == Pad2(m / 60) && s[|s| - 2..] == Pad2(m % 60)
            && (m < 6000 ==> |s| == 6)
  {
    hide Pad2;
    Pad2Length(Magnitude(minutes));
  }

  lemma Pad2Length(m: nat)
    ensures |Pad2(m % 60)| == 2 && (m < 6000 ==> |Pad2(m / 60)| == 2)
  {
  }

  lemma Pad2Exact(m: nat, n: nat)
    requires Pad2(m) == Pad2(n)
    ensures m == n
  {
    ManyDigits(m);
    ManyDigits(n);
    if m >= 100 && n >= 100 {
      DecimalExact(m, n);
    } else if m < 100 && n < 100 {
      assert Pad2(m)[0] == DigitChar(m / 10) && Pad2(n)[0] == DigitChar(n / 10);
      assert Pad2(m)[1] == DigitChar(m % 10) && Pad2(n)[1] == DigitChar(n % 10);
    }
  }

  lemma ManyDigits(n: nat)
    ensures n >= 100 ==> |Decimal(n)| >= 3
  {
    if n >= 100 {
      assert Decimal(n) == Decimal(n / 10) + [DigitChar(n % 10)];
      assert Decimal(n / 10) == Decimal(n / 10 / 10) + [DigitChar(n / 10 % 10)];
    }
  }

  /** A number is told by its decimal text. */
  lemma {:induction false} DecimalExact(m: nat, n: nat)
    requires Decimal(m) == Decimal(n)
    ensures m == n
  {
    var s := Decimal(m);
    assert s[|s| - 1] == DigitChar(m % 10) && s[|s| - 1] == DigitChar(n % 10);
    if m >= 10 && n >= 10 {
      assert s[..|s| - 1] == Decimal(m / 10) && s[..|s| - 1] == Decimal(n / 10);
      DecimalExact(m / 10, n / 10);
    }
  }

  lemma TextExamples()
    ensures Decimal(0) == "0" && Decimal(70) == "70" && Decimal(1905) == "1905"
    ensures ZoneText(330) == "+05:30" && ZoneText(-570) == "-09:30" && ZoneText(0) == "+00:00"
  {
    hide Decimal;
    DecimalIs(0);
    DecimalIs(7);
    DecimalIs(70);
    DecimalIs(1);
    DecimalIs(19);
    DecimalIs(190);
    DecimalIs(1905);
  }

  /** Nanoseconds in the unit of an elapsed flag. */
  function Unit(flag: char): (u: nat)
    ensures u > 0
  {
    if flag == 'u' then 1 else if flag == 'i' then 1000 else if flag == 'o' then 1_000_000 else 1_000_000_000
  }

  /** The time since another message, in whole units, never negative. */
  function ElapsedCount(flag: char, time: int, since: int): nat {
    (if time > since then time - since else 0) / Unit(flag)
  }

  /** Nanoseconds, microseconds, milliseconds and seconds, each rounded down. */
  lemma ElapsedUnits(time: int, since: int)
    ensures time <= since ==> forall flag :: ElapsedCount(flag, time, since) == 0
    ensures time >= since ==>
              var d := time - since;
              && ElapsedCount('u', time, since) == d
              && 1000 * ElapsedCount('i', time, since) <= d < 1000 * ElapsedCount('i', time, since) + 1000
              && 1_000_000 * ElapsedCount('o', time, since) <= d < 1_000_000 * (ElapsedCount('o', time, since) + 1)
              && 1_000_000_000 * ElapsedCount('O', time, since) <= d
                 < 1_000_000_000 * (ElapsedCount('O', time, since) + 1)
  {
  }

  function PairText(mdc: seq<(string, string)>, k: nat): string
    requires k < |mdc|
  {
    mdc[k].0 + ":" + mdc[k].1 + if k == |mdc| - 1 then "" else " "
  }

  /** The formatters a flag is compiled to. A flag that is not known appears as it is; after a
      truncation mark, the mark is taken for the function-name flag. */
  function FlagFormatters(custom: set<char>, flag: char, pad: Padding): seq<Formatter> {
    if flag in custom then [Custom(flag, pad)]
    else if flag == '+' then [Full(0, "")]
    else if flag == '^' || flag == '$' then [Color]
    else if flag == '%' then [Chars("%")]
    else if flag == 'z' then [Zone(pad, 0, 0)]
    else if flag in ELAPSED_FLAGS then [Elapsed(flag, pad, 0)]
    else if flag == '&' then [Mdc(pad)]
    else if flag in TIME_FLAGS || flag in EXACT_FLAGS || flag in OTHER_FLAGS then [Field(flag, pad)]
    else if !pad.truncate then [Chars(['%', flag])]
    else [Field('!', pad.(truncate := false)), Chars([flag])]
  }

  // ----- pad specs -----

  predicate IsDigit(c: char) { '0' <= c <= '9' }

  function Digit(c: char): (d: nat)
    requires IsDigit(c)
  {
    c as int - '0' as int
  }

  /** One more decimal digit, in size_t arithmetic. */
  function NextWidth(w: nat, digit: nat): nat { (w * 10 + digit) % TWO64 }

  /** The number in front of s, continuing w. */
  function Number(s: string, w: nat): nat {
    if s == "" || !IsDigit(s[0]) then w else Number(s[1..], NextWidth(w, Digit(s[0])))
  }

  function AfterNumber(s: string): (rest: string)
    ensures |rest| <= |s| && rest == s[|s| - |rest|..]
  {
    if s == "" || !IsDigit(s[0]) then s else AfterNumber(s[1..])
  }

  function SideOf(s: string): (Side, string) {
    if s != "" && s[0] == '-' then (Right, s[1..])
    else if s != "" && s[0] == '=' then (Center, s[1..])
    else (Left, s)
  }

  /** Digits continue a number. */
  lemma {:induction false} NumberGoesOn(s: string, rest: string, w: nat)
    requires forall k :: 0 <= k < |s| ==> IsDigit(s[k])
    ensures Number(s + rest, w) == Number(rest, Number(s, w)) && AfterNumber(s + rest) == AfterNumber(rest)
    decreases |s|
  {
    hide Number, AfterNumber, NextWidth, Digit;
    if s == "" {
      assert s + rest == rest;
      NumberEnds(w);
    } else {
      NumberStep(s, w);
      NumberStep(s + rest, w);
      assert (s + rest)[1..] == s[1..] + rest;
      NumberGoesOn(s[1..], rest, NextWidth(w, Digit(s[0])));
    }
  }

  lemma NumberStep(s: string, w: nat)
    requires s != "" && IsDigit(s[0])
    ensures Number(s, w) == Number(s[1..], NextWidth(w, Digit(s[0]))) && AfterNumber(s) == AfterNumber(s[1..])
  {
    hide NextWidth;
  }

  lemma NumberEnds(w: nat)
    ensures Number("", w) == w
  {
  }

  lemma {:induction false} DecimalDigits(n: nat)
    ensures forall k :: 0 <= k < |Decimal(n)| ==> IsDigit(Decimal(n)[k])
  {
    if n >= 10 {
      DecimalDigits(n / 10);
    }
  }

  /** A number in decimal is read as that number, if it fits 64 bits. */
  lemma {:induction false} NumberReadsDecimal(n: nat)
    requires n < TWO64
    ensures Number(Decimal(n), 0) == n
  {
    hide Number, AfterNumber, NextWidth, DigitChar, IsDigit, Decimal;
    DecimalIs(n);
    OneDigitNumber(n % 10, n / 10);
    if n >= 10 {
      NumberReadsDecimal(n / 10);
      DecimalDigits(n / 10);
      NumberGoesOn(Decimal(n / 10), [DigitChar(n % 10)], 0);
    }
  }

  lemma DecimalIs(n: nat)
    ensures Decimal(n) == if n < 10 then [DigitChar(n % 10)] else Decimal(n / 10) + [DigitChar(n % 10)]
    ensures n < 10 ==> n / 10 == 0 && n % 10 == n
  {
    hide DigitChar;
  }

  lemma OneDigitNumber(d: nat, w: nat)
    requires d < 10 && w * 10 + d < TWO64
    ensures Number([DigitChar(d)], w) == w * 10 + d
  {
    var s: string := [DigitChar(d)];
    assert IsDigit(s[0]) && Digit(s[0]) == d && s[1..] == "";
    assert NextWidth(w, d) == w * 10 + d;
  }

  /** A width in decimal in front of a flag is read as that width, up to 64. */
  lemma WidthIsRead(n: nat, flag: char)
    requires n < TWO64 && !IsDigit(flag) && flag != '!'
    ensures PadSpec(Decimal(n) + [flag]) == (Padding(if n < 64 then n else 64, Left, false, true), [flag])
    ensures PadSpec("-" + Decimal(n) + "!" + [flag]) == (Padding(if n < 64 then n else 64, Right, true, true), [flag])
    ensures PadSpec("=" + Decimal(n) + [flag]) == (Padding(if n < 64 then n else 64, Center, false, true), [flag])
  {
    hide Decimal, Number, AfterNumber;
    var f: string := [flag];
    DecimalDigits(n);
    NumberReadsDecimal(n);
    SpecParts(n, f);
    SpecParts(n, "!" + f);
    assert ("-" + Decimal(n) + "!" + f)[1..] == Decimal(n) + ("!" + f);
    assert ("=" + Decimal(n) + f)[1..] == Decimal(n) + f;
    assert ("!" + f)[1..] == f;
  }

  lemma SpecParts(n: nat, rest: string)
    requires n < TWO64 && rest != "" && !IsDigit(rest[0])
    ensures Decimal(n) != "" && IsDigit((Decimal(n) + rest)[0])
    ensures SideOf(Decimal(n) + rest) == (Left, Decimal(n) + rest)
    ensures Number(Decimal(n) + rest, 0) == n && AfterNumber(Decimal(n) + rest) == rest
  {
    hide Decimal;
    DecimalDigits(n);
    NumberReadsDecimal(n);
    NumberGoesOn(Decimal(n), rest, 0);
  }

  /** The padding in front of a flag and what follows it. A side mark without a width is
      skipped. */
  function PadSpec(s: string): (r: (Padding, string))
    ensures r.0.width <= 64
    ensures |r.1| <= |s| && r.1 == s[|s| - |r.1|..]
  {
    var (side, s1) := SideOf(s);
    if s1 == "" || !IsDigit(s1[0]) then (NO_PADDING, s1)
    else
      var width := Number(s1, 0);
      var s2 := AfterNumber(s1);
      var truncate := s2 != "" && s2[0] == '!';
      (Padding(if width < MAX_WIDTH then width else MAX_WIDTH, side, truncate, true), if truncate then s2[1..] else s2)
  }

  // ----- what is remembered between messages -----

  const ZONE_REFRESH := 10_000_000_000

  /** The time for which the offset was last asked for: it is asked for anew only when ten seconds
      have passed, counted from the epoch at first. */
  function Refreshed(times: seq<int>): int {
    if times == [] then 0
    else
      var last, before := times[|times| - 1], Refreshed(times[..|times| - 1]);
      if last - before >= ZONE_REFRESH then last else before
  }

  /** The offset shown for the last of some messages. */
  function ZoneShown(env: Env, times: seq<int>): int {
    if Refreshed(times) == 0 then 0 else env.offset(env.clock(SecsOf(Refreshed(times))))
  }

  /** The time elapsed times are counted from. */
  function Since(start: int, times: seq<int>): int {
    if times == [] then start else times[|times| - 1]
  }

  /** The offset remembered is that of a message less than ten seconds older, or none if no
      message has yet come ten seconds after the epoch. */
  lemma {:induction false} RefreshedIsRecent(times: seq<int>)
    ensures Refreshed(times) == 0 || (Refreshed(times) >= 10_000_000_000 && Refreshed(times) in times)
    ensures times != [] ==> times[|times| - 1] - Refreshed(times) < 10_000_000_000
    ensures Refreshed(times) == 0 <==> forall t :: t in times ==> t < 10_000_000_000
  {
    if times != [] {
      var front, last := times[..|times| - 1], times[|times| - 1];
      RefreshedIsRecent(front);
      assert times == front + [last];
    }
  }

  /** In nanoseconds, while time does not go back, the elapsed times printed for successive
      messages add up to the whole time. */
  lemma {:induction false} ElapsedAddsUp(start: int, times: seq<int>)
    requires forall k :: 0 <= k < |times| ==> times[k] >= Since(start, times[..k])
    ensures ElapsedSum(start, times) == Since(start, times) - start
  {
    if times != [] {
      var front := times[..|times| - 1];
      assert forall k :: 0 <= k < |front| ==> front[..k] == times[..k];
      ElapsedAddsUp(start, front);
    }
  }

  function ElapsedSum(start: int, times: seq<int>): nat {
    if times == [] then 0
    else
      var front := times[..|times| - 1];
      ElapsedSum(start, front) + ElapsedCount('u', times[|times| - 1], Since(start, front))
  }

  // ----- printing -----

  function Spaces(n: nat): (s: string)
    ensures |s| == n && forall k :: 0 <= k < n ==> s[k] == ' '
  {
    seq(n, _ => ' ')
  }

  function CutEnd(s: string, n: nat): string {
    if n <= |s| then s[..|s| - n] else ""
  }

  /** A text of declared size `size`, padded or truncated. */
  function Padded(dest: string, pad: Padding, size: nat, text: string): string {
    var remaining := pad.width - size;
    if remaining < 0 && pad.truncate then CutEnd(dest + text, -remaining)
    else if remaining <= 0 then dest + text
    else match pad.side
      case Left => dest + Spaces(remaining) + text
      case Right => dest + text + Spaces(remaining)
      case Center => dest + Spaces(remaining / 2) + text + Spaces(remaining - remaining / 2)
  }

  /** The same, if the pattern asked for padding at all. */
  function MaybePadded(dest: string, pad: Padding, size: nat, text: string): string {
    if pad.enabled then Padded(dest, pad, size, text) else dest + text
  }

  /** Each pair of the MDC is padded by itself; an empty MDC is an empty text. */
  function MdcPrinted(dest: string, pad: Padding, mdc: seq<(string, string)>, k: nat): string
    requires k <= |mdc|
    decreases |mdc| - k
  {
    if mdc == [] then MaybePadded(dest, pad, 0, "")
    else if k == |mdc| then dest
    else MdcPrinted(MaybePadded(dest, pad, |PairText(mdc, k)|, PairText(mdc, k)), pad, mdc, k + 1)
  }

  /** What a formatter prints. */
  function Printed(env: Env, f: Formatter, msg: LogMsg, tm: Tm, shown: Shown, dest: string): string {
    match f
    case Chars(text) => dest + text
    case Color => dest
    case Custom(flag, pad) => dest + env.customText(flag, pad, msg)
    case Full(_, _) => dest + shown.datetime + env.fullTail(msg)
    case Zone(pad, _, _) => MaybePadded(dest, pad, 6, ZoneText(shown.offset))
    case Elapsed(flag, pad, _) =>
      var text := Decimal(ElapsedCount(flag, msg.time, shown.since));
      MaybePadded(dest, pad, |text|, text)
    case Mdc(pad) => MdcPrinted(dest, pad, msg.mdc, 0)
    case Field(flag, pad) =>
      MaybePadded(dest, pad, FieldSize(env, flag, msg, tm), FieldText(env, flag, msg, tm))
  }

  function PrintedAll(env: Env, fs: seq<Formatter>, msg: LogMsg, tm: Tm, shown: Shown, dest: string): string {
    if fs == [] then dest
    else PrintedAll(env, fs[1..], msg, tm, shown, Printed(env, fs[0], msg, tm, shown, dest))
  }

  /** The direct reading of a pattern, character by character. */
  function Reading(env: Env, p: string, msg: LogMsg, tm: Tm, shown: Shown, dest: string): string
    decreases |p|
  {
    if p == "" then dest
    else if p[0] != '%' then Reading(env, p[1..], msg, tm, shown, dest + [p[0]])
    else
      var (pad, rest) := PadSpec(p[1..]);
      if rest == "" then dest
      else
        var printed := PrintedAll(env, FlagFormatters(env.custom, rest[0], pad), msg, tm, shown, dest);
        Reading(env, rest[1..], msg, tm, shown, printed)
  }

  // ----- compiling -----

  function UserChars(user: string): seq<Formatter> {
    if user == "" then [] else [Chars(user)]
  }

  /** The formatters of a pattern, the characters in `user` being printed before it. */
  function Compiled(custom: set<char>, p: string, user: string): seq<Formatter>
    decreases |p|
  {
    if p == "" then UserChars(user)
    else if p[0] != '%' then Compiled(custom, p[1..], user + [p[0]])
    else
      var (pad, rest) := PadSpec(p[1..]);
      if rest == "" then UserChars(user)
      else UserChars(user) + FlagFormatters(custom, rest[0], pad) + Compiled(custom, rest[1..], "")
  }

  lemma {:induction false} PrintedAppend(env: Env, fs: seq<Formatter>, gs: seq<Formatter>, msg: LogMsg, tm: Tm,
                                         shown: Shown, dest: string)
    ensures PrintedAll(env, fs + gs, msg, tm, shown, dest)
            == PrintedAll(env, gs, msg, tm, shown, PrintedAll(env, fs, msg, tm, shown, dest))
  {
    hide Printed;
    if fs == [] {
      assert fs + gs == gs;
    } else {
      PrintedAppend(env, fs[1..], gs, msg, tm, shown, Printed(env, fs[0], msg, tm, shown, dest));
      assert (fs + gs)[1..] == fs[1..] + gs;
    }
  }

  lemma PrintUser(env: Env, user: string, msg: LogMsg, tm: Tm, shown: Shown, dest: string)
    ensures PrintedAll(env, UserChars(user), msg, tm, shown, dest) == dest + user
  {
    if user == "" {
      assert dest + user == dest;
    }
  }

  /** The compiled list prints what the pattern, read directly, says. */
  lemma {:induction false} CompiledPrintsReading(env: Env, p: string, user: string, msg: LogMsg, tm: Tm, shown: Shown,
                                                 dest: string)
    ensures PrintedAll(env, Compiled(env.custom, p, user), msg, tm, shown, dest)
            == Reading(env, p, msg, tm, shown, dest + user)
    decreases |p|
  {
    hide PadSpec, FlagFormatters, PrintedAll;
    PrintUser(env, user, msg, tm, shown, dest);
    if p == "" {
    } else if p[0] != '%' {
      CompiledPrintsReading(env, p[1..], user + [p[0]], msg, tm, shown, dest);
      assert dest + (user + [p[0]]) == dest + user + [p[0]];
    } else {
      var (pad, rest) := PadSpec(p[1..]);
      if rest != "" {
        var flag, more := FlagFormatters(env.custom, rest[0], pad), Compiled(env.custom, rest[1..], "");
        PrintedAppend(env, UserChars(user) + flag, more, msg, tm, shown, dest);
        PrintedAppend(env, UserChars(user), flag, msg, tm, shown, dest);
        var printed := PrintedAll(env, flag, msg, tm, shown, dest + user);
        CompiledPrintsReading(env, rest[1..], "", msg, tm, shown, printed);
        assert printed + "" == printed;
      }
    }
  }

  // ----- laws of patterns -----

  /** Every '%' doubled. */
  function Escaped(text: string): string {
    if text == "" then "" else (if text[0] == '%' then "%%" else [text[0]]) + Escaped(text[1..])
  }

  lemma NoPadSpec(s: string)
    requires s != "" && !IsDigit(s[0]) && s[0] != '-' && s[0] != '='
    ensures PadSpec(s) == (NO_PADDING, s)
  {
    hide Number, AfterNumber;
    assert SideOf(s) == (Left, s);
  }

  /** A text whose '%' are doubled is a pattern that prints the text. */
  lemma {:induction false} EscapedPrintsItself(env: Env, text: string, msg: LogMsg, tm: Tm, shown: Shown, dest: string)
    requires '%' !in env.custom
    ensures Reading(env, Escaped(text), msg, tm, shown, dest) == dest + text
    decreases |text|
  {
    hide PadSpec;
    if text == "" {
      assert dest + text == dest;
    } else {
      var p := Escaped(text);
      EscapedPrintsItself(env, text[1..], msg, tm, shown, dest + [text[0]]);
      assert dest + [text[0]] + text[1..] == dest + text;
      if text[0] == '%' {
        assert p[1..][1..] == Escaped(text[1..]);
        NoPadSpec(p[1..]);
        PrintedPercent(env, msg, tm, shown, dest);
      } else {
        assert p[1..] == Escaped(text[1..]);
      }
    }
  }

  lemma PrintedPercent(env: Env, msg: LogMsg, tm: Tm, shown: Shown, dest: string)
    requires '%' !in env.custom
    ensures PrintedAll(env, FlagFormatters(env.custom, '%', NO_PADDING), msg, tm, shown, dest) == dest + ['%']
  {
  }

  ghost predicate Blank(s: string) { forall k :: 0 <= k < |s| ==> s[k] == ' ' }

  /** A field whose size is declared exactly takes max(width, size) characters, or exactly the
      width when a longer text is truncated; it is the text, or its beginning, between spaces
      split as the side says, and leaves what was printed before alone. */
  lemma PaddedField(dest: string, pad: Padding, text: string, out: string) returns (left: nat, right: nat)
    requires out == Padded(dest, pad, |text|, text)
    ensures dest <= out && left + right <= |out| - |dest|
    ensures var field := out[|dest|..];
            && Blank(field[..left]) && Blank(field[|field| - right..])
            && var shown := field[left..|field| - right];
               && shown <= text
               && (|text| <= pad.width ==> shown == text && |field| == pad.width)
               && (|text| > pad.width && pad.truncate ==> |field| == |shown| == pad.width)
               && (|text| > pad.width && !pad.truncate ==> field == text)
    ensures match pad.side
            case Left => right == 0
            case Right => left == 0
            case Center => left <= right <= left + 1
  {
    hide Padded, Spaces;
    var shown;
    left, shown, right := PaddedParts(dest, pad, text);
    Between(dest, left, shown, right);
  }

  lemma PaddedParts(dest: string, pad: Padding, text: string) returns (left: nat, shown: string, right: nat)
    ensures Padded(dest, pad, |text|, text) == dest + (Spaces(left) + shown + Spaces(right))
    ensures left + right == if |text| < pad.width then pad.width - |text| else 0
    ensures shown == if |text| > pad.width && pad.truncate then text[..pad.width] else text
    ensures match pad.side
            case Left => right == 0
            case Right => left == 0
            case Center => left <= right <= left + 1
  {
    var n := if |text| < pad.width then pad.width - |text| else 0;
    match pad.side {
      case Left => left, right := n, 0;
      case Right => left, right := 0, n;
      case Center => left, right := n / 2, n - n / 2;
    }
    shown := if |text| > pad.width && pad.truncate then text[..pad.width] else text;
  }

  lemma Between(dest: string, left: nat, shown: string, right: nat)
    ensures var out := dest + (Spaces(left) + shown + Spaces(right));
            && dest <= out && |out| == |dest| + left + |shown| + right
            && var field := out[|dest|..];
               && Blank(field[..left]) && Blank(field[|field| - right..]) && field[left..|field| - right] == shown
               && (left + right == 0 ==> field == shown)
  {
    var field := Spaces(left) + shown + Spaces(right);
    assert (dest + field)[|dest|..] == field;
    assert field[..left] == Spaces(left) && field[|field| - right..] == Spaces(right);
    assert field[left..|field| - right] == shown;
  }
}
