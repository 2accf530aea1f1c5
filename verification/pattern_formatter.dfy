/** The pattern formatter: compiling with an iterator that is advanced across functions, padding
    around each field, and the times cached between messages. */
module PatternFormatters {
  import opened Patterns

  // ----- what formatters remember -----

  /** What the formatters of a pattern remember between messages. All of a kind are shown the same
      messages, so they remember the same. */
  datatype Notes = Notes(cacheSecs: int, cached: string, lastUpdate: int, offset: int, since: int)

  function NewNotes(now: int): Notes { Notes(0, "", 0, 0, now) }

  function Noted(f: Formatter, notes: Notes): Formatter {
    match f
    case Full(_, _) => Full(notes.cacheSecs, notes.cached)
    case Zone(pad, _, _) => Zone(pad, notes.lastUpdate, notes.offset)
    case Elapsed(flag, pad, _) => Elapsed(flag, pad, notes.since)
    case Chars(_) | Field(_, _) | Custom(_, _) | Color | Mdc(_) => f
  }

  function NotedAll(fs: seq<Formatter>, notes: Notes): (r: seq<Formatter>)
    ensures |r| == |fs|
  {
    seq(|fs|, k requires 0 <= k < |fs| => Noted(fs[k], notes))
  }

  lemma NotedAppend(fs: seq<Formatter>, gs: seq<Formatter>, notes: Notes)
    ensures NotedAll(fs + gs, notes) == NotedAll(fs, notes) + NotedAll(gs, notes)
  {
  }

  // ----- compiling -----

  /** The side mark, if there is one. */
  method ReadSide(p: string, it0: nat) returns (it: nat, side: Side)
    requires it0 < |p|
    ensures it0 <= it <= |p| && SideOf(p[it0..]) == (side, p[it..])
  {
    assert p[it0..][1..] == p[it0 + 1..];
    match p[it0] {
      case '-' => return it0 + 1, Right;
      case '=' => return it0 + 1, Center;
      case _ => return it0, Left;
    }
  }

  /** handle_padspec_: advances the iterator past the pad spec. */
  method HandlePadspec(p: string, it0: nat) returns (it: nat, pad: Padding)
    requires it0 <= |p|
    ensures it0 <= it <= |p|
    ensures PadSpec(p[it0..]) == (pad, p[it..])
  {
    hide Number, AfterNumber, NextWidth, SideOf;
    it := it0;
    if it == |p| {
      NoSide();
      return it, NO_PADDING;
    }
    var side, width, truncate := Left, 0, false;
    it, side := ReadSide(p, it);
    if it == |p| || !IsDigit(p[it]) {
      return it, NO_PADDING;
    }
    it, width := ReadWidth(p, it);
    assert it < |p| ==> p[it..][1..] == p[it + 1..];
    if it < |p| && p[it] == '!' {
      truncate := true;
      it := it + 1;
    }
    pad := Padding(if width < MAX_WIDTH then width else MAX_WIDTH, side, truncate, true);
  }

  lemma NoSide()
    ensures SideOf("") == (Left, "")
  {
  }

  /** The digits of a width, in size_t arithmetic. */
  method ReadWidth(p: string, start: nat) returns (it: nat, width: nat)
    requires start < |p| && IsDigit(p[start])
    ensures start < it <= |p|
    ensures width == Number(p[start..], 0) && p[it..] == AfterNumber(p[start..])
  {
    hide Number, AfterNumber, NextWidth;
    width := Digit(p[start]);
    it := start + 1;
    FirstDigit(p, start);
    while it < |p| && IsDigit(p[it])
      invariant start < it <= |p|
      invariant Number(p[start..], 0) == Number(p[it..], width) && AfterNumber(p[start..]) == AfterNumber(p[it..])
    {
      OneDigit(p, it, width);
      var digit := Digit(p[it]);
      width := NextWidth(width, digit);
      it := it + 1;
    }
    NoDigit(p, it, width);
  }

  lemma OneDigit(p: string, it: nat, width: nat)
    requires it < |p| && IsDigit(p[it])
    ensures Number(p[it..], width) == Number(p[it + 1..], NextWidth(width, Digit(p[it])))
    ensures AfterNumber(p[it..]) == AfterNumber(p[it + 1..])
  {
    hide NextWidth;
    assert p[it..][1..] == p[it + 1..];
  }

  lemma FirstDigit(p: string, it: nat)
    requires it < |p| && IsDigit(p[it])
    ensures Number(p[it..], 0) == Number(p[it + 1..], Digit(p[it])) && AfterNumber(p[it..]) == AfterNumber(p[it + 1..])
  {
    hide Number, AfterNumber, NextWidth;
    OneDigit(p, it, 0);
    SmallDigit(Digit(p[it]));
  }

  lemma SmallDigit(d: nat)
    requires d < 10
    ensures NextWidth(0, d) == d
  {
  }

  lemma NoDigit(p: string, it: nat, width: nat)
    requires it <= |p| && (it == |p| || !IsDigit(p[it]))
    ensures Number(p[it..], width) == width && AfterNumber(p[it..]) == p[it..]
  {
    hide NextWidth;
  }

  lemma SingleTimed(f: Formatter, notes: Notes)
    ensures NeedTime([f]) == Timed(f) && NotedAll([f], notes) == [Noted(f, notes)]
  {
    assert [f][0] == f;
  }

  lemma PairTimed(f: Formatter, g: Formatter, notes: Notes)
    ensures NeedTime([f, g]) == (Timed(f) || Timed(g)) && NotedAll([f, g], notes) == [Noted(f, notes), Noted(g, notes)]
  {
    assert [f, g] == [f] + [g];
    NeedTimeAppend([f], [g]);
    SingleTimed(f, notes);
    SingleTimed(g, notes);
  }

  /** handle_flag_: appends the formatters of a flag and tells whether the time is needed. */
  method HandleFlag(custom: set<char>, now: int, flag: char, padding: Padding)
    returns (fs: seq<Formatter>, needTime: bool)
    ensures fs == NotedAll(FlagFormatters(custom, flag, padding), NewNotes(now))
    ensures needTime == NeedTime(fs)
  {
    hide NeedTime, NotedAll;
    forall f: Formatter ensures NeedTime([f]) == Timed(f) && NotedAll([f], NewNotes(now)) == [Noted(f, NewNotes(now))] {
      SingleTimed(f, NewNotes(now));
    }
    if flag in custom {
      return [Custom(flag, padding)], false;
    }
    if flag == '+' {
      return [Full(0, "")], true;
    } else if flag == '^' || flag == '$' {
      return [Color], false;
    } else if flag == '%' {
      return [Chars("%")], false;
    } else if flag == 'z' {
      return [Zone(padding, 0, 0)], true;
    } else if flag in ELAPSED_FLAGS {
      return [Elapsed(flag, padding, now)], false;
    } else if flag == '&' {
      return [Mdc(padding)], false;
    } else if flag in TIME_FLAGS {
      return [Field(flag, padding)], true;
    } else if flag in EXACT_FLAGS || flag in OTHER_FLAGS {
      return [Field(flag, padding)], false;
    } else if !padding.truncate {
      return [Chars(['%', flag])], false;
    } else {
      var plain := padding.(truncate := false);
      PairTimed(Field('!', plain), Chars([flag]), NewNotes(now));
      return [Field('!', plain), Chars([flag])], false;
    }
  }

  predicate Timed(f: Formatter) {
    f.Full? || f.Zone? || (f.Field? && f.flag in TIME_FLAGS)
  }

  /** Some formatter reads the broken-down time. */
  predicate NeedTime(fs: seq<Formatter>) {
    exists k :: 0 <= k < |fs| && Timed(fs[k])
  }

  lemma NeedTimeAppend(fs: seq<Formatter>, gs: seq<Formatter>)
    ensures NeedTime(fs + gs) == (NeedTime(fs) || NeedTime(gs))
  {
    if NeedTime(fs) {
      var k :| 0 <= k < |fs| && Timed(fs[k]);
      assert Timed((fs + gs)[k]);
    } else if NeedTime(gs) {
      var k :| 0 <= k < |gs| && Timed(gs[k]);
      assert Timed((fs + gs)[|fs| + k]);
    }
  }

  /** compile_pattern_: the iterator never steps past the end. Elapsed formatters take `now` as
      the time of the last message. */
  method CompilePattern(custom: set<char>, now: int, p: string) returns (formatters: seq<Formatter>, needTime: bool)
    ensures formatters == NotedAll(Compiled(custom, p, ""), NewNotes(now))
    ensures needTime == NeedTime(formatters)
  {
    hide PadSpec, FlagFormatters, NeedTime, UserChars, NotedAll, NewNotes;
    formatters, needTime := [], false;
    ghost var notes := NewNotes(now);
    var user := "";
    var it := 0;
    NothingTimed();
    assert p[0..] == p;
    assert [] + NotedAll(Compiled(custom, p, ""), notes) == NotedAll(Compiled(custom, p, ""), notes);
    while it < |p|
      invariant it <= |p|
      invariant formatters + NotedAll(Compiled(custom, p[it..], user), notes)
             == NotedAll(Compiled(custom, p, ""), notes)
      invariant needTime == NeedTime(formatters)
      decreases |p| - it
    {
      if p[it] == '%' {
        assert p[it..][1..] == p[it + 1..];
        UserNotTimed(user, notes);
        NeedTimeAppend(formatters, UserChars(user));
        var pad;
        it, pad := HandlePadspec(p, it + 1);
        if it == |p| {
          break;
        }
        assert p[it..][1..] == p[it + 1..];
        var fs, timed := HandleFlag(custom, now, p[it], pad);
        NeedTimeAppend(formatters + UserChars(user), fs);
        ghost var more := Compiled(custom, p[it + 1..], "");
        NotedAppend(UserChars(user) + FlagFormatters(custom, p[it], pad), more, notes);
        NotedAppend(UserChars(user), FlagFormatters(custom, p[it], pad), notes);
        AppendAll(formatters, UserChars(user), fs, NotedAll(more, notes));
        formatters, needTime := formatters + UserChars(user) + fs, needTime || timed;
        user := "";
      } else {
        assert p[it..][1..] == p[it + 1..];
        user := user + [p[it]];
      }
      it := it + 1;
    }
    UserNotTimed(user, notes);
    NeedTimeAppend(formatters, UserChars(user));
    formatters := formatters + UserChars(user);
  }

  lemma AppendAll(a: seq<Formatter>, b: seq<Formatter>, c: seq<Formatter>, d: seq<Formatter>)
    ensures a + (b + c + d) == a + b + c + d
  {
  }

  lemma NothingTimed()
    ensures !NeedTime([])
  {
  }

  lemma UserNotTimed(user: string, notes: Notes)
    ensures !NeedTime(UserChars(user)) && NotedAll(UserChars(user), notes) == UserChars(user)
  {
  }

  // ----- padding -----

  /** pad_it: a prefix of a string of 64 spaces. */
  method PadIt(dest: string, count: int) returns (out: string)
    requires 0 <= count <= MAX_WIDTH
    ensures out == dest + Spaces(count)
  {
    var spaces := Spaces(MAX_WIDTH);
    assert spaces[..count] == Spaces(count);
    out := dest + spaces[..count];
  }

  /** The scoped padder around a text: what its constructor pads, the text, what its destructor
      pads or cuts off. No pad needs more than the 64 spaces there are. */
  method FormatPadded(dest: string, pad: Padding, size: nat, text: string) returns (out: string)
    requires pad.width <= MAX_WIDTH
    ensures out == Padded(dest, pad, size, text)
  {
    hide Spaces;
    NoSpaces(dest + text);
    out := dest;
    var remaining := pad.width - size;
    if remaining > 0 {
      match pad.side {
        case Left =>
          out := PadIt(out, remaining);
          remaining := 0;
        case Center =>
          var half := remaining / 2;
          var reminder := remaining % 2;
          out := PadIt(out, half);
          remaining := half + reminder;
        case Right =>
      }
    }
    out := out + text;
    NoSpaces(out);
    if remaining >= 0 {
      out := PadIt(out, remaining);
    } else if pad.truncate {
      out := CutEnd(out, -remaining);
    }
  }

  lemma NoSpaces(s: string)
    ensures s + Spaces(0) == s
  {
  }

  /** count_digits: four digits at a time. */
  method CountDigits(n0: nat) returns (count: nat)
    ensures count == |Decimal(n0)|
  {
    var n := n0;
    count := 1;
    while n >= 10000
      invariant count - 1 + |Decimal(n)| == |Decimal(n0)|
    {
      FourDigits(n);
      n := n / 10000;
      count := count + 4;
    }
    FewDigits(n);
    if n < 10 {
    } else if n < 100 {
      count := count + 1;
    } else if n < 1000 {
      count := count + 2;
    } else {
      count := count + 3;
    }
  }

  lemma OneDigitLess(n: nat)
    requires n >= 10
    ensures |Decimal(n)| == |Decimal(n / 10)| + 1
  {
  }

  lemma FourDigits(n: nat)
    requires n >= 10000
    ensures |Decimal(n)| == |Decimal(n / 10000)| + 4
  {
    hide Decimal;
    OneDigitLess(n);
    OneDigitLess(n / 10);
    OneDigitLess(n / 100);
    OneDigitLess(n / 1000);
    assert n / 10 / 10 == n / 100 && n / 100 / 10 == n / 1000 && n / 1000 / 10 == n / 10000;
  }

  lemma FewDigits(n: nat)
    requires n < 10000
    ensures |Decimal(n)| == if n < 10 then 1 else if n < 100 then 2 else if n < 1000 then 3 else 4
  {
    if n >= 10 {
      OneDigitLess(n);
    }
    if n >= 100 {
      OneDigitLess(n / 10);
    }
    if n >= 1000 {
      OneDigitLess(n / 100);
    }
  }

  // ----- formatting with cached times -----

  /** What is printed does not depend on what is remembered, only on what is shown. */
  lemma {:induction false} SamePrint(env: Env, fs: seq<Formatter>, notes: Notes, msg: LogMsg, tm: Tm, shown: Shown,
                                     dest: string)
    ensures PrintedAll(env, NotedAll(fs, notes), msg, tm, shown, dest) == PrintedAll(env, fs, msg, tm, shown, dest)
  {
    hide MaybePadded, MdcPrinted, FieldText, FieldSize, ZoneText, Decimal;
    if fs != [] {
      assert NotedAll(fs, notes)[1..] == NotedAll(fs[1..], notes);
      SamePrint(env, fs[1..], notes, msg, tm, shown, Printed(env, fs[0], msg, tm, shown, dest));
    }
  }

  /** A pattern that asks for no time shows only what has elapsed. */
  lemma {:induction false} UntimedPrint(env: Env, fs: seq<Formatter>, msg: LogMsg, tm: Tm, tm': Tm, shown: Shown,
                                        shown': Shown, dest: string)
    requires !NeedTime(fs) && shown.since == shown'.since
    ensures PrintedAll(env, fs, msg, tm, shown, dest) == PrintedAll(env, fs, msg, tm', shown', dest)
  {
    hide MaybePadded, MdcPrinted, ZoneText, Decimal;
    if fs != [] {
      assert !Timed(fs[0]);
      assert !NeedTime(fs[1..]) by {
        assert fs == [fs[0]] + fs[1..];
        NeedTimeAppend([fs[0]], fs[1..]);
      }
      UntimedPrint(env, fs[1..], msg, tm, tm', shown, shown', Printed(env, fs[0], msg, tm, shown, dest));
    }
  }

  lemma SameNeed(fs: seq<Formatter>, notes: Notes)
    ensures NeedTime(NotedAll(fs, notes)) == NeedTime(fs)
  {
    if NeedTime(fs) {
      var k :| 0 <= k < |fs| && Timed(fs[k]);
      assert Timed(NotedAll(fs, notes)[k]);
    }
    if NeedTime(NotedAll(fs, notes)) {
      var k :| 0 <= k < |fs| && Timed(NotedAll(fs, notes)[k]);
      assert Timed(fs[k]);
    }
  }

  lemma UntimedNoted(fs: seq<Formatter>, notes: Notes, notes': Notes)
    requires !NeedTime(fs) && notes.since == notes'.since
    ensures NotedAll(fs, notes) == NotedAll(fs, notes')
  {
    forall k | 0 <= k < |fs| ensures Noted(fs[k], notes) == Noted(fs[k], notes') {
      assert !Timed(fs[k]);
    }
  }

  ghost predicate Narrow(f: Formatter) { f.Field? || f.Zone? || f.Elapsed? || f.Mdc? ==> f.pad.width <= MAX_WIDTH }

  ghost predicate AllNarrow(fs: seq<Formatter>) { forall k :: 0 <= k < |fs| ==> Narrow(fs[k]) }

  lemma FlagNarrow(custom: set<char>, flag: char, pad: Padding)
    requires pad.width <= MAX_WIDTH
    ensures AllNarrow(FlagFormatters(custom, flag, pad))
  {
  }

  /** No compiled field is wider than the padder's 64 spaces. */
  lemma {:induction false} CompiledNarrow(custom: set<char>, p: string, user: string)
    ensures AllNarrow(Compiled(custom, p, user))
    decreases |p|
  {
    hide PadSpec, FlagFormatters;
    if p == "" {
    } else if p[0] != '%' {
      CompiledNarrow(custom, p[1..], user + [p[0]]);
    } else {
      var (pad, rest) := PadSpec(p[1..]);
      if rest != "" {
        FlagNarrow(custom, rest[0], pad);
        CompiledNarrow(custom, rest[1..], "");
      }
    }
  }

  /** What is remembered after some messages of which the last had the broken-down time `tm`. */
  function NotesAfter(env: Env, start: int, times: seq<int>, tm: Tm): Notes {
    if times == [] then NewNotes(start)
    else
      Notes(SecsOf(times[|times| - 1]), env.datetime(tm), Refreshed(times), ZoneShown(env, times), Since(start, times))
  }

  /** What is remembered after one more message: the full formatter formats the date and time in a
      new second, the zone formatter asks for the offset when ten seconds have passed. */
  function NextNotes(env: Env, notes: Notes, time: int, tm: Tm): Notes {
    var known := notes.cacheSecs == SecsOf(time) && notes.cached != "";
    var due := time - notes.lastUpdate >= ZONE_REFRESH;
    Notes(SecsOf(time), if known then notes.cached else env.datetime(tm),
          if due then time else notes.lastUpdate, if due then env.offset(tm) else notes.offset, time)
  }

  /** The broken-down time used for a message: in second 0 of the epoch it is asked for only after
      another time has been. */
  function TmOf(env: Env, asked: bool, secs: int): Tm {
    if secs == 0 && !asked then ZERO_TM else env.clock(secs)
  }

  lemma NotesGoOn(env: Env, start: int, times: seq<int>, tm: Tm, time: int, tm': Tm)
    requires times != [] && SecsOf(time) == SecsOf(times[|times| - 1]) ==> tm' == tm
    requires SecsOf(time) != 0 ==> tm' == env.clock(SecsOf(time))
    ensures NextNotes(env, NotesAfter(env, start, times, tm), time, tm') == NotesAfter(env, start, times + [time], tm')
  {
    hide ZoneShown;
    assert (times + [time])[..|times|] == times;
    ZoneGoesOn(env, times, time);
    NotesWithin(env, start, times, tm);
  }

  lemma NotesWithin(env: Env, start: int, times: seq<int>, tm: Tm)
    ensures var notes := NotesAfter(env, start, times, tm);
            notes.lastUpdate == Refreshed(times) && notes.offset == ZoneShown(env, times)
  {
  }

  lemma ZoneGoesOn(env: Env, times: seq<int>, time: int)
    ensures var due := time - Refreshed(times) >= ZONE_REFRESH;
            && Refreshed(times + [time]) == (if due then time else Refreshed(times))
            && (due ==> SecsOf(time) != 0)
            && ZoneShown(env, times + [time])
               == if due then env.offset(env.clock(SecsOf(time))) else ZoneShown(env, times)
  {
    RefreshedIsRecent(times);
    assert (times + [time])[..|times|] == times;
  }

  /** What formatters have to show for a message that comes after some others. */
  function ShownFor(env: Env, start: int, before: seq<int>, time: int, tm: Tm): Shown {
    Shown(env.datetime(tm), ZoneShown(env, before + [time]), Since(start, before))
  }

  lemma ShownNext(env: Env, start: int, times: seq<int>, tm: Tm, time: int, tm': Tm)
    requires times != [] && SecsOf(time) == SecsOf(times[|times| - 1]) ==> tm' == tm
    requires SecsOf(time) != 0 ==> tm' == env.clock(SecsOf(time))
    ensures var notes := NotesAfter(env, start, times, tm);
            var next := NextNotes(env, notes, time, tm');
            Shown(next.cached, next.offset, notes.since) == ShownFor(env, start, times, time, tm')
  {
    NotesGoOn(env, start, times, tm, time, tm');
  }

  /** mdc_formatter: each pair is padded by itself. */
  method FormatMdc(dest: string, pad: Padding, mdc: seq<(string, string)>) returns (out: string)
    requires pad.width <= MAX_WIDTH
    ensures out == MdcPrinted(dest, pad, mdc, 0)
  {
    hide MaybePadded;
    if mdc == [] {
      out := FormatMaybe(dest, pad, 0, "");
      return;
    }
    out := dest;
    for k := 0 to |mdc|
      invariant MdcPrinted(out, pad, mdc, k) == MdcPrinted(dest, pad, mdc, 0)
    {
      var (key, value) := mdc[k];
      var size := |key| + |value| + 1;
      var text := key + ":" + value;
      if k != |mdc| - 1 {
        size := size + 1;
        text := text + " ";
      }
      PairTextIs(mdc, k);
      out := FormatMaybe(out, pad, size, text);
    }
  }

  lemma PairTextIs(mdc: seq<(string, string)>, k: nat)
    requires k < |mdc|
    ensures PairText(mdc, k) == mdc[k].0 + ":" + mdc[k].1 + if k != |mdc| - 1 then " " else ""
    ensures |PairText(mdc, k)| == |mdc[k].0| + |mdc[k].1| + if k != |mdc| - 1 then 2 else 1
    ensures k == |mdc| - 1 ==> PairText(mdc, k) == mdc[k].0 + ":" + mdc[k].1
  {
  }

  /** A text through the padder the flag was compiled with. */
  method FormatMaybe(dest: string, pad: Padding, size: nat, text: string) returns (out: string)
    requires pad.width <= MAX_WIDTH
    ensures out == MaybePadded(dest, pad, size, text)
  {
    hide Padded;
    if pad.enabled {
      out := FormatPadded(dest, pad, size, text);
    } else {
      out := dest + text;
    }
  }

  /** elapsed_formatter: the time since the last message it saw. */
  method FormatElapsed(flag: char, pad: Padding, last: int, time: int, dest: string) returns (out: string)
    requires pad.width <= MAX_WIDTH
    ensures var text := Decimal(ElapsedCount(flag, time, last)); out == MaybePadded(dest, pad, |text|, text)
  {
    hide Decimal, MaybePadded, Unit;
    var delta := time - last;
    if delta < 0 {
      delta := 0;
    }
    var count := delta / Unit(flag);
    var digits := CountDigits(count);
    out := FormatMaybe(dest, pad, digits, Decimal(count));
  }

  /** One formatter: what it remembers goes on to the next message, what it prints is what it has
      to show for this one. */
  method FormatOne(env: Env, f: Formatter, ghost notes: Notes, msg: LogMsg, tm: Tm, dest: string)
    returns (f': Formatter, out: string)
    requires Narrow(f) && f == Noted(f, notes)
    ensures var next := NextNotes(env, notes, msg.time, tm);
            && f' == Noted(f, next)
            && out == Printed(env, f, msg, tm, Shown(next.cached, next.offset, notes.since), dest)
  {
    hide MaybePadded, MdcPrinted, FieldText, FieldSize, ZoneText, Decimal, ElapsedCount;
    f' := f;
    match f {
      case Chars(text) => out := dest + text;
      case Color => out := dest;
      case Custom(flag, pad) => out := dest + env.customText(flag, pad, msg);
      case Field(flag, pad) =>
        out := FormatMaybe(dest, pad, FieldSize(env, flag, msg, tm), FieldText(env, flag, msg, tm));
      case Full(cacheSecs, cached) =>
        var datetime := cached;
        if cacheSecs != msg.Secs() || cached == "" {
          datetime := env.datetime(tm);
          f' := Full(msg.Secs(), datetime);
        }
        out := dest + datetime + env.fullTail(msg);
      case Zone(pad, lastUpdate, offset) =>
        var minutes := offset;
        if msg.time - lastUpdate >= ZONE_REFRESH {
          minutes := env.offset(tm);
          f' := Zone(pad, msg.time, minutes);
        }
        out := FormatMaybe(dest, pad, 6, ZoneText(minutes));
      case Elapsed(flag, pad, last) =>
        f' := Elapsed(flag, pad, msg.time);
        out := FormatElapsed(flag, pad, last, msg.time, dest);
      case Mdc(pad) => out := FormatMdc(dest, pad, msg.mdc);
    }
  }

  class PatternFormatter {
    const env: Env
    const eol: string
    var pattern: string
    var needLocaltime: bool
    var cachedTm: Tm
    var lastLogSecs: int
    var formatters: seq<Formatter>
    ghost var asked: bool      // some message has made it ask for the time
    ghost var start: int       // when the pattern was compiled
    ghost var times: seq<int>  // of the messages formatted since then

    ghost function Notes(): Notes
      reads this
    {
      NotesAfter(env, start, times, cachedTm)
    }

    ghost predicate Valid()
      reads this
    {
      && formatters == NotedAll(Compiled(env.custom, pattern, ""), Notes())
      && needLocaltime == NeedTime(formatters)
      && AllNarrow(formatters)
      && cachedTm == TmOf(env, asked, lastLogSecs) && (!asked ==> lastLogSecs == 0)
      && (needLocaltime && times != [] ==> lastLogSecs == SecsOf(times[|times| - 1]))
    }

    constructor (env: Env, eol: string, now: int, pattern: string)
      ensures Valid() && this.env == env && this.eol == eol && this.pattern == pattern
      ensures !asked && start == now && times == []
    {
      hide Compiled, NeedTime, Narrow, NotedAll;
      this.env, this.eol, this.pattern := env, eol, pattern;
      var compiled, needTime := CompilePattern(env.custom, now, pattern);
      formatters, needLocaltime := compiled, needTime;
      cachedTm, lastLogSecs, asked, start, times := ZERO_TM, 0, false, now, [];
      CompiledNarrow(env.custom, pattern, "");
      NarrowNoted(Compiled(env.custom, pattern, ""), NewNotes(now));
    }

    /** Without a pattern: the full formatter, as for "%+". */
    constructor Default(env: Env, eol: string, ghost now: int)
      requires env.custom == {}
      ensures Valid() && this.env == env && this.eol == eol && this.pattern == "%+"
      ensures !asked && start == now && times == []
    {
      hide Compiled, NeedTime, Narrow;
      this.env, this.eol, this.pattern := env, eol, "%+";
      formatters, needLocaltime := [Full(0, "")], true;
      cachedTm, lastLogSecs, asked, start, times := ZERO_TM, 0, false, now, [];
      new;
      FullIsPlus();
      FullIsNew(now);
    }

    method SetPattern(now: int, pattern: string)
      requires Valid()
      modifies this
      ensures Valid() && this.pattern == pattern && asked == old(asked) && start == now && times == []
    {
      hide Compiled, NeedTime, Narrow, NotedAll;
      this.pattern := pattern;
      needLocaltime := false;
      formatters, needLocaltime := CompilePattern(env.custom, now, pattern);
      start, times := now, [];
      CompiledNarrow(env.custom, pattern, "");
      NarrowNoted(Compiled(env.custom, pattern, ""), NewNotes(now));
    }

    /** Formats a message. In every run of Format and SetPattern the caches are not seen: what is
        printed is the pattern read with the date and time of the message's own second, the offset
        of the last message that came ten seconds after the one before, and the time since the
        last message. */
    method Format(msg: LogMsg, dest0: string) returns (dest: string)
      requires Valid()
      modifies this
      ensures Valid() && pattern == old(pattern) && start == old(start) && times == old(times) + [msg.time]
      ensures needLocaltime == old(needLocaltime) && asked == (old(asked) || (needLocaltime && msg.Secs() != 0))
      ensures var tm := TmOf(env, old(asked), msg.Secs());
              dest == Reading(env, pattern, msg, tm, ShownFor(env, start, old(times), msg.time, tm), dest0) + eol
    {
      hide Compiled, NeedTime, Narrow, NotedAll, NextNotes, NotesAfter, PrintedAll, ShownFor, Reading, TmOf;
      ghost var fs, notes := Compiled(env.custom, pattern, ""), Notes();
      ghost var tmWas, tm := cachedTm, TmOf(env, asked, msg.Secs());
      TmIs(env, asked, msg.Secs());
      SameNeed(fs, notes);
      if needLocaltime {
        if msg.Secs() != lastLogSecs {
          cachedTm := env.clock(msg.Secs());
          lastLogSecs := msg.Secs();
          asked := true;
        }
        NotesGoOn(env, start, times, tmWas, msg.time, tm);
        ShownNext(env, start, times, tmWas, msg.time, tm);
      } else {
        UntimedGoesOn(env, start, times, fs, tmWas, msg, tm, dest0);
      }
      NarrowNoted(fs, notes);
      dest := FormatAll(fs, notes, msg, dest0);
      times := times + [msg.time];
      SameNeed(fs, NextNotes(env, notes, msg.time, cachedTm));
      NarrowNoted(fs, NextNotes(env, notes, msg.time, cachedTm));
      CompiledPrintsReading(env, pattern, "", msg, tm, ShownFor(env, start, old(times), msg.time, tm), dest0);
      assert dest0 + "" == dest0;
      dest := dest + eol;
    }

    method FormatAll(ghost fs: seq<Formatter>, ghost notes: Notes, msg: LogMsg, dest0: string) returns (dest: string)
      requires AllNarrow(fs) && formatters == NotedAll(fs, notes)
      modifies `formatters
      ensures var next := NextNotes(env, notes, msg.time, cachedTm);
              && formatters == NotedAll(fs, next)
              && dest == PrintedAll(env, fs, msg, cachedTm, Shown(next.cached, next.offset, notes.since), dest0)
    {
      hide Narrow, Printed, NextNotes, NotedAll, Partly, PrintedAll;
      dest := dest0;
      ghost var next := NextNotes(env, notes, msg.time, cachedTm);
      ghost var shown := Shown(next.cached, next.offset, notes.since);
      assert fs[0..] == fs;
      PartlyNone(fs, notes, next);
      for k := 0 to |formatters|
        invariant |formatters| == |fs|
        invariant formatters == Partly(fs, notes, next, k)
        invariant PrintedAll(env, fs[k..], msg, cachedTm, shown, dest)
               == PrintedAll(env, fs, msg, cachedTm, shown, dest0)
        modifies `formatters
      {
        PartlyNext(fs, notes, next, k);
        PrintedNext(env, fs, k, msg, cachedTm, shown, dest);
        NotedTwice(env, fs[k], notes, next, msg, cachedTm, shown, dest);
        var f;
        f, dest := FormatOne(env, formatters[k], notes, msg, cachedTm, dest);
        formatters := formatters[k := f];
      }
      PartlyAll(fs, notes, next);
      PrintedNone(env, fs, msg, cachedTm, shown, dest);
    }
  }

  /** The first k formatters have gone on to the next notes. */
  ghost function Partly(fs: seq<Formatter>, notes: Notes, next: Notes, k: nat): seq<Formatter>
    requires k <= |fs|
  {
    NotedAll(fs, next)[..k] + NotedAll(fs, notes)[k..]
  }

  lemma PartlyNone(fs: seq<Formatter>, notes: Notes, next: Notes)
    ensures Partly(fs, notes, next, 0) == NotedAll(fs, notes)
  {
  }

  lemma PartlyAll(fs: seq<Formatter>, notes: Notes, next: Notes)
    ensures Partly(fs, notes, next, |fs|) == NotedAll(fs, next)
  {
  }

  lemma PartlyNext(fs: seq<Formatter>, notes: Notes, next: Notes, k: nat)
    requires k < |fs|
    ensures |Partly(fs, notes, next, k)| == |fs| && Partly(fs, notes, next, k)[k] == Noted(fs[k], notes)
    ensures Partly(fs, notes, next, k)[k := Noted(fs[k], next)] == Partly(fs, notes, next, k + 1)
  {
    hide Noted;
  }

  lemma PrintedNext(env: Env, fs: seq<Formatter>, k: nat, msg: LogMsg, tm: Tm, shown: Shown, dest: string)
    requires k < |fs|
    ensures PrintedAll(env, fs[k..], msg, tm, shown, dest)
            == PrintedAll(env, fs[k + 1..], msg, tm, shown, Printed(env, fs[k], msg, tm, shown, dest))
  {
    hide Printed;
    assert fs[k..][1..] == fs[k + 1..];
  }

  lemma PrintedNone(env: Env, fs: seq<Formatter>, msg: LogMsg, tm: Tm, shown: Shown, dest: string)
    ensures PrintedAll(env, fs[|fs|..], msg, tm, shown, dest) == dest
  {
  }

  lemma NotedTwice(env: Env, f: Formatter, notes: Notes, next: Notes, msg: LogMsg, tm: Tm, shown: Shown, dest: string)
    ensures Noted(Noted(f, notes), notes) == Noted(f, notes) && Noted(Noted(f, notes), next) == Noted(f, next)
    ensures Narrow(Noted(f, notes)) == Narrow(f)
    ensures Printed(env, Noted(f, notes), msg, tm, shown, dest) == Printed(env, f, msg, tm, shown, dest)
  {
  }

  lemma NarrowNoted(fs: seq<Formatter>, notes: Notes)
    ensures AllNarrow(fs) <==> AllNarrow(NotedAll(fs, notes))
  {
    var gs := NotedAll(fs, notes);
    assert forall k :: 0 <= k < |fs| ==> Narrow(gs[k]) == Narrow(fs[k]);
  }

  lemma TmIs(env: Env, asked: bool, secs: int)
    ensures TmOf(env, asked, secs) == (if secs == 0 && !asked then ZERO_TM else env.clock(secs))
    ensures forall a :: secs != 0 ==> TmOf(env, a, secs) == env.clock(secs)
    ensures TmOf(env, true, secs) == env.clock(secs)
  {
  }

  /** Without a timed formatter neither the notes nor the text depend on the time. */
  lemma UntimedGoesOn(env: Env, start: int, times: seq<int>, fs: seq<Formatter>, tmWas: Tm, msg: LogMsg, tm: Tm,
                      dest: string)
    requires !NeedTime(fs)
    ensures var notes := NotesAfter(env, start, times, tmWas);
            var next := NextNotes(env, notes, msg.time, tmWas);
            && NotedAll(fs, next) == NotedAll(fs, NotesAfter(env, start, times + [msg.time], tmWas))
            && PrintedAll(env, fs, msg, tmWas, Shown(next.cached, next.offset, notes.since), dest)
               == PrintedAll(env, fs, msg, tm, ShownFor(env, start, times, msg.time, tm), dest)
  {
    hide NeedTime, NotedAll, PrintedAll;
    var notes := NotesAfter(env, start, times, tmWas);
    var next := NextNotes(env, notes, msg.time, tmWas);
    UntimedNoted(fs, next, NotesAfter(env, start, times + [msg.time], tmWas));
    UntimedPrint(env, fs, msg, tmWas, tm, Shown(next.cached, next.offset, notes.since),
                 ShownFor(env, start, times, msg.time, tm), dest);
  }

  lemma FullIsPlus()
    ensures Compiled({}, "%+", "") == [Full(0, "")]
  {
    hide PadSpec;
    var p := "%+";
    NoPadSpec(p[1..]);
    assert p[1..][1..] == "";
    assert UserChars("") + FlagFormatters({}, '+', NO_PADDING) + Compiled({}, "", "") == [Full(0, "")];
  }

  lemma FullIsNew(now: int)
    ensures NotedAll([Full(0, "")], NewNotes(now)) == [Full(0, "")]
    ensures NeedTime([Full(0, "")]) && AllNarrow([Full(0, "")])
  {
    hide NeedTime;
    SingleTimed(Full(0, ""), NewNotes(now));
  }

  // ----- what the caches can be seen to do -----

  /** The pattern read with date, time and offset all computed for the message's own second. */
  function Afresh(env: Env, p: string, msg: LogMsg, since: int, dest: string): string {
    var tm := env.clock(msg.Secs());
    Reading(env, p, msg, tm, Shown(env.datetime(tm), env.offset(tm), since), dest)
  }

  /** What Format prints before the end of line. */
  function Shows(env: Env, p: string, asked: bool, start: int, before: seq<int>, msg: LogMsg, dest: string): string {
    var tm := TmOf(env, asked, msg.Secs());
    Reading(env, p, msg, tm, ShownFor(env, start, before, msg.time, tm), dest)
  }

  /** The zone formatter will ask for the offset, or the one it remembers is the right one. */
  predicate ZoneCurrent(env: Env, before: seq<int>, time: int) {
    time - Refreshed(before) >= 10_000_000_000 || ZoneShown(env, before) == env.offset(env.clock(SecsOf(time)))
  }

  lemma SingleFlag(env: Env, flag: char, msg: LogMsg, tm: Tm, shown: Shown, dest: string)
    requires !IsDigit(flag) && flag != '-' && flag != '='
    ensures Reading(env, ['%', flag], msg, tm, shown, dest)
            == PrintedAll(env, FlagFormatters(env.custom, flag, NO_PADDING), msg, tm, shown, dest)
  {
    hide PadSpec, FlagFormatters, PrintedAll;
    var p := ['%', flag];
    NoPadSpec(p[1..]);
    assert p[1..] == [flag] && p[1..][1..] == "";
  }

  lemma ExactReading(env: Env, flag: char, msg: LogMsg, tm: Tm, shown: Shown, dest: string)
    requires env.custom == {} && flag in EXACT_FLAGS
    ensures Reading(env, ['%', flag], msg, tm, shown, dest) == dest + ExactText(flag, msg)
  {
    hide Reading, ExactText, FlagFormatters, FieldText;
    ExactFlag(env, flag, msg, tm);
    FieldReading(env, flag, msg, tm, shown, dest);
  }

  lemma ExactFlag(env: Env, flag: char, msg: LogMsg, tm: Tm)
    requires flag in EXACT_FLAGS
    ensures FlagFormatters({}, flag, NO_PADDING) == [Field(flag, NO_PADDING)] && !IsDigit(flag)
    ensures FieldText(env, flag, msg, tm) == ExactText(flag, msg) && flag != '-' && flag != '='
  {
    hide ExactText;
  }

  /** What the flags print whose text is a part of the message. */
  lemma FlagTexts(env: Env, msg: LogMsg, tm: Tm, shown: Shown, dest: string)
    requires env.custom == {}
    ensures Reading(env, ['%', 'v'], msg, tm, shown, dest) == dest + msg.payload
    ensures Reading(env, ['%', 'n'], msg, tm, shown, dest) == dest + msg.name
    ensures Reading(env, ['%', 'l'], msg, tm, shown, dest) == dest + msg.level
    ensures Reading(env, ['%', 'L'], msg, tm, shown, dest) == dest + msg.shortLevel
    ensures msg.source.Source? ==>
              && Reading(env, ['%', 's'], msg, tm, shown, dest) == dest + msg.source.basename
              && Reading(env, ['%', 'g'], msg, tm, shown, dest) == dest + msg.source.filename
              && Reading(env, ['%', '!'], msg, tm, shown, dest) == dest + msg.source.funcname
  {
    hide Reading;
    ExactReading(env, 'v', msg, tm, shown, dest);
    ExactReading(env, 'n', msg, tm, shown, dest);
    ExactReading(env, 'l', msg, tm, shown, dest);
    ExactReading(env, 'L', msg, tm, shown, dest);
    ExactReading(env, 's', msg, tm, shown, dest);
    ExactReading(env, 'g', msg, tm, shown, dest);
    ExactReading(env, '!', msg, tm, shown, dest);
  }

  /** Flags of the broken-down time print the platform's text for that flag. */
  lemma TimeFlagTexts(env: Env, flag: char, msg: LogMsg, tm: Tm, shown: Shown, dest: string)
    requires env.custom == {}
    requires flag in {'a', 'A', 'b', 'h', 'B', 'c', 'C', 'Y', 'D', 'x', 'm', 'd', 'H', 'I', 'M', 'S', 'p', 'r', 'R',
                      'T', 'X'}
    ensures Reading(env, ['%', flag], msg, tm, shown, dest) == dest + env.timed(flag, msg, tm)
  {
    hide Reading, FlagFormatters, FieldText;
    TimeFlag(env, flag, msg, tm);
    FieldReading(env, flag, msg, tm, shown, dest);
  }

  lemma TimeFlag(env: Env, flag: char, msg: LogMsg, tm: Tm)
    requires flag in {'a', 'A', 'b', 'h', 'B', 'c', 'C', 'Y', 'D', 'x', 'm', 'd', 'H', 'I', 'M', 'S', 'p', 'r', 'R',
                      'T', 'X'}
    ensures FlagFormatters({}, flag, NO_PADDING) == [Field(flag, NO_PADDING)] && !IsDigit(flag)
    ensures FieldText(env, flag, msg, tm) == env.timed(flag, msg, tm) && flag != '-' && flag != '='
  {
  }

  lemma PlainFlag(env: Env, flag: char, msg: LogMsg, tm: Tm)
    requires flag in {'t', 'e', 'f', 'F', 'E', 'P', '@', '#'}
    ensures FlagFormatters({}, flag, NO_PADDING) == [Field(flag, NO_PADDING)] && !IsDigit(flag)
    ensures FieldText(env, flag, msg, tm) == env.plain(flag, msg) && flag != '-' && flag != '='
  {
  }

  lemma FieldReading(env: Env, flag: char, msg: LogMsg, tm: Tm, shown: Shown, dest: string)
    requires env.custom == {} && !IsDigit(flag) && flag != '-' && flag != '='
    requires FlagFormatters({}, flag, NO_PADDING) == [Field(flag, NO_PADDING)]
    ensures Reading(env, ['%', flag], msg, tm, shown, dest) == dest + FieldText(env, flag, msg, tm)
  {
    hide Reading, FlagFormatters, FieldText, FieldSize;
    SingleFlag(env, flag, msg, tm, shown, dest);
  }

  /** So do thread, process, line and fractions of the second. */
  lemma PlainFlagTexts(env: Env, flag: char, msg: LogMsg, tm: Tm, shown: Shown, dest: string)
    requires env.custom == {} && flag in {'t', 'e', 'f', 'F', 'E', 'P', '@', '#'}
    ensures Reading(env, ['%', flag], msg, tm, shown, dest) == dest + env.plain(flag, msg)
  {
    hide Reading, FlagFormatters, FieldText;
    PlainFlag(env, flag, msg, tm);
    FieldReading(env, flag, msg, tm, shown, dest);
  }

  /** Elapsed times are printed in decimal. */
  lemma ElapsedFlagTexts(env: Env, flag: char, msg: LogMsg, tm: Tm, shown: Shown, dest: string)
    requires env.custom == {} && flag in {'u', 'i', 'o', 'O'}
    ensures Reading(env, ['%', flag], msg, tm, shown, dest)
            == dest + Decimal(ElapsedCount(flag, msg.time, shown.since))
  {
    hide Reading, Decimal, ElapsedCount, ExactText, ZoneText, MdcPrinted;
    SingleFlag(env, flag, msg, tm, shown, dest);
  }

  /** Colour marks print nothing. */
  lemma MarksPrintNothing(env: Env, flag: char, msg: LogMsg, tm: Tm, shown: Shown, dest: string)
    requires env.custom == {} && flag in {'^', '$'}
    ensures Reading(env, ['%', flag], msg, tm, shown, dest) == dest
  {
    hide Reading, ExactText, ZoneText, Decimal, MdcPrinted;
    SingleFlag(env, flag, msg, tm, shown, dest);
  }

  /** All flags, and the side marks. */
  const ALL_FLAGS := {'+', '^', '$', '%', 'n', 'l', 'L', 't', 'v', 'a', 'A', 'b', 'h', 'B', 'c', 'C', 'Y', 'D', 'x',
                      'm', 'd', 'H', 'I', 'M', 'S', 'e', 'f', 'F', 'E', 'p', 'r', 'R', 'T', 'X', 'z', 'P', '@', 's',
                      'g', '#', '!', 'u', 'i', 'o', 'O', '&', '-', '='}

  /** A flag that does not exist is printed as it is. */
  lemma UnknownFlag(env: Env, flag: char, msg: LogMsg, tm: Tm, shown: Shown, dest: string)
    requires env.custom == {} && !IsDigit(flag)
    requires flag !in ALL_FLAGS
    ensures Reading(env, ['%', flag], msg, tm, shown, dest) == dest + ['%', flag]
  {
    hide Reading;
    SingleFlag(env, flag, msg, tm, shown, dest);
    NoSuchFlag(flag);
  }

  lemma NoSuchFlag(flag: char)
    requires flag !in ALL_FLAGS
    ensures FlagFormatters({}, flag, NO_PADDING) == [Chars(['%', flag])]
  {
  }

  /** Keys and values of the diagnostic context, separated by spaces. */
  lemma MdcReading(env: Env, msg: LogMsg, tm: Tm, shown: Shown, k0: string, v0: string, k1: string, v1: string)
    requires env.custom == {} && msg.mdc == [(k0, v0), (k1, v1)]
    ensures Reading(env, ['%', '&'], msg, tm, shown, "") == k0 + ":" + v0 + " " + (k1 + ":" + v1)
  {
    hide Reading;
    SingleFlag(env, '&', msg, tm, shown, "");
    TwoPairs(msg.mdc);
  }

  lemma TwoPairs(mdc: seq<(string, string)>)
    requires |mdc| == 2
    ensures MdcPrinted("", NO_PADDING, mdc, 0) == mdc[0].0 + ":" + mdc[0].1 + " " + (mdc[1].0 + ":" + mdc[1].1)
  {
    hide PairText;
    PairTextIs(mdc, 0);
    PairTextIs(mdc, 1);
    var first := PairText(mdc, 0);
    assert "" + first == first;
    assert MdcPrinted(first, NO_PADDING, mdc, 1) == MdcPrinted(first + PairText(mdc, 1), NO_PADDING, mdc, 2);
  }

  lemma ZoneReading(env: Env, msg: LogMsg, tm: Tm, shown: Shown, dest: string)
    requires 'z' !in env.custom
    ensures Reading(env, "%z", msg, tm, shown, dest) == dest + ZoneText(shown.offset)
  {
    hide Reading;
    SingleFlag(env, 'z', msg, tm, shown, dest);
    assert "%z" == ['%', 'z'];
  }

  lemma FullReading(env: Env, msg: LogMsg, tm: Tm, shown: Shown, dest: string)
    requires '+' !in env.custom
    ensures Reading(env, "%+", msg, tm, shown, dest) == dest + shown.datetime + env.fullTail(msg)
  {
    hide Reading;
    SingleFlag(env, '+', msg, tm, shown, dest);
    assert "%+" == ['%', '+'];
  }

  /** Once a time has been asked for, and for every message after second 0, every pattern prints
      what it would print afresh if the offset is current - and "%z" only then. */
  lemma PrintsAfresh(env: Env, p: string, asked: bool, start: int, before: seq<int>, msg: LogMsg, dest: string)
    requires asked || msg.Secs() != 0
    ensures ZoneCurrent(env, before, msg.time) ==>
              Shows(env, p, asked, start, before, msg, dest) == Afresh(env, p, msg, Since(start, before), dest)
    ensures p == "%z" && 'z' !in env.custom ==>
              (Shows(env, p, asked, start, before, msg, dest) == Afresh(env, p, msg, Since(start, before), dest)
               <==> ZoneCurrent(env, before, msg.time))
  {
    hide Reading, ZoneText, ZoneShown;
    ZoneGoesOn(env, before, msg.time);
    if p == "%z" && 'z' !in env.custom {
      var tm := env.clock(msg.Secs());
      ZoneReading(env, msg, tm, ShownFor(env, start, before, msg.time, tm), dest);
      ZoneReading(env, msg, tm, Shown(env.datetime(tm), env.offset(tm), Since(start, before)), dest);
      TextExact(dest, ZoneShown(env, before + [msg.time]), env.offset(tm));
    }
  }

  lemma TextExact(dest: string, minutes: int, other: int)
    ensures dest + ZoneText(minutes) == dest + ZoneText(other) <==> minutes == other
  {
    hide ZoneText;
    ZoneTextExact(minutes, other);
    assert (dest + ZoneText(minutes))[|dest|..] == ZoneText(minutes);
    assert (dest + ZoneText(other))[|dest|..] == ZoneText(other);
  }

  /** The first message, if before second 10 of the epoch, is shown with offset +00:00 whatever
      the offset is. */
  lemma ZoneStartsAtZero(env: Env, asked: bool, start: int, msg: LogMsg)
    requires 'z' !in env.custom && msg.time < 10_000_000_000
    ensures Shows(env, "%z", asked, start, [], msg, "") == "+00:00"
    ensures env.offset(env.clock(msg.Secs())) != 0 ==>
              Shows(env, "%z", asked, start, [], msg, "") != Afresh(env, "%z", msg, start, "")
  {
    hide Reading;
    var own := env.clock(msg.Secs());
    ZoneReading(env, msg, own, Shown(env.datetime(own), env.offset(own), start), "");
    TextExact("", 0, env.offset(own));
    var tm := TmOf(env, asked, msg.Secs());
    ZoneGoesOn(env, [], msg.time);
    ZoneReading(env, msg, tm, ShownFor(env, start, [], msg.time, tm), "");
    assert ZoneText(0) == "+00:00";
  }

  /** When the offset changes, messages within ten seconds are still shown with the old one. */
  lemma ZoneKeepsOldOffset(env: Env, start: int, first: int, msg: LogMsg)
    requires 'z' !in env.custom && first >= 10_000_000_000 && msg.time - first < 10_000_000_000
    ensures var was, own := env.offset(env.clock(SecsOf(first))), env.offset(env.clock(msg.Secs()));
            && Shows(env, "%z", true, start, [first], msg, "") == ZoneText(was)
            && (own != was ==> Shows(env, "%z", true, start, [first], msg, "") != Afresh(env, "%z", msg, first, ""))
  {
    hide Reading, ZoneText;
    var own := env.clock(msg.Secs());
    ZoneReading(env, msg, own, Shown(env.datetime(own), env.offset(own), first), "");
    TextExact("", env.offset(env.clock(SecsOf(first))), env.offset(own));
    var tm := TmOf(env, true, msg.Secs());
    ZoneGoesOn(env, [], first);
    ZoneGoesOn(env, [first], msg.time);
    assert [] + [first] == [first];
    ZoneReading(env, msg, tm, ShownFor(env, start, [first], msg.time, tm), "");
  }

  /** Where the offset never changes it is shown from the first message ten seconds after the
      epoch on, and before that only if it is zero. */
  lemma SteadyZone(env: Env, offset: int, before: seq<int>, time: int)
    requires forall secs :: env.offset(env.clock(secs)) == offset
    ensures ZoneCurrent(env, before, time) <==> offset == 0 || exists t :: t in before + [time] && t >= 10_000_000_000
  {
    RefreshedIsRecent(before);
    RefreshedIsRecent(before + [time]);
    ZoneGoesOn(env, before, time);
  }

  /** In second 0 of the epoch a formatter that has not asked for a time yet shows the date and
      time of all-zero fields: the full formatter is right there only if that is the same text. */
  lemma FullAtSecondZero(env: Env, start: int, before: seq<int>, msg: LogMsg, dest: string)
    requires '+' !in env.custom && msg.Secs() == 0
    ensures Shows(env, "%+", false, start, before, msg, dest) == dest + env.datetime(ZERO_TM) + env.fullTail(msg)
    ensures Shows(env, "%+", false, start, before, msg, dest) == Afresh(env, "%+", msg, Since(start, before), dest)
            <==> env.datetime(ZERO_TM) == env.datetime(env.clock(0))
  {
    hide Reading, ZoneShown;
    var tm := env.clock(0);
    FullReading(env, msg, ZERO_TM, ShownFor(env, start, before, msg.time, ZERO_TM), dest);
    FullReading(env, msg, tm, Shown(env.datetime(tm), env.offset(tm), Since(start, before)), dest);
    Cancel(dest, env.datetime(ZERO_TM), env.datetime(tm), env.fullTail(msg));
  }

  lemma Cancel(a: string, b: string, c: string, d: string)
    ensures a + b + d == a + c + d <==> b == c
  {
    var left, right := a + b + d, a + c + d;
    assert left[|a|..|left| - |d|] == b && right[|a|..|right| - |d|] == c;
  }
}
