/**
 * logger/logger.go: the pure and state-changing pieces of the levelled
 * logger.
 *
 *  - `itoa`, the zero-padded decimal conversion used by the timestamp
 *    header, and `formatHeader` built from it;
 *  - `ofmt`, which assembles one log line (priority and timestamp, prefix,
 *    caller file and line, the message, a final newline);
 *  - the `Logger` object: its constructors, the sub-logger constructor,
 *    the priority filter `Loggable`, `Close` and `EnableRotation`.
 *
 * The flag word is a Go `int` used only as a bit set; it is kept as the
 * set of positions of its 1 bits (`Flags`), so that `f & (1 << k) != 0`
 * reads `k in f`, `f | (1 << k)` reads `f + {k}` and `f &^ m` reads
 * `f - m`.
 */
module Logging {
  import opened Wrappers

  /** A flag word, as the positions of its 1 bits. */
  type Flags = set<nat>

  // Flag bits, by position: the Go constant is 1 << position. The first
  // five are public, the rest internal.
  const Ldate: nat := 0
  const Ltime: nat := 1
  const Lmicroseconds: nat := 2
  const Llongfile: nat := 3
  const Lshortfile: nat := 4
  const LSyslog: nat := 5
  const LPrefix: nat := 6
  const LClose: nat := 7
  const LSublog: nat := 8
  const LRotate: nat := 9
  const LstdFlags: Flags := {Ldate, Ltime}

  /** The number of daily logs kept when rotation is given no maximum. */
  const MaxLogfiles := 7

  // Priorities.
  const LogNone := 0
  const LogDebug := 1
  const LogInfo := 2
  const LogWarning := 3
  const LogErr := 4
  const LogCrit := 5
  const LogEmerg := 6

  // ---------------------------------------------------------------------
  // Decimal digits

  const Two64 := 0x1_0000_0000_0000_0000

  /** The range of Go's 64-bit `int`. */
  predicate IsGoInt(i: int)
  {
    -Two64 / 2 <= i < Two64 / 2
  }

  /** Go's conversion `uint(i)`: the two's-complement reading of i. */
  function Uint(i: int): (u: nat)
    requires IsGoInt(i)
    ensures u < Two64
    ensures i >= 0 ==> u == i
    ensures i < 0 ==> u == i + Two64
  {
    if i >= 0 then i else i + Two64
  }

  predicate IsDigit(c: char)
  {
    '0' <= c <= '9'
  }

  /** The character of the decimal digit d: `byte(d) + '0'`. */
  function DigitChar(d: nat): (c: char)
    requires d < 10
    ensures IsDigit(c)
  {
    (('0' as int) + d) as char
  }

  function DigitValue(c: char): (d: nat)
    requires IsDigit(c)
    ensures d < 10
  {
    (c as int) - ('0' as int)
  }

  lemma DigitRoundTrip(d: nat)
    requires d < 10
    ensures DigitValue(DigitChar(d)) == d
  {
  }

  predicate AllDigits(s: string)
  {
    forall k :: 0 <= k < |s| ==> IsDigit(s[k])
  }

  /** The number a string of decimal digits denotes. */
  function DecimalValue(s: string): (v: nat)
    requires AllDigits(s)
  {
    if s == [] then 0 else 10 * DecimalValue(s[..|s| - 1]) + DigitValue(s[|s| - 1])
  }

  /** The canonical decimal form of u: no leading zero, "0" for zero. */
  function Digits(u: nat): (s: string)
    ensures |s| >= 1 && AllDigits(s)
    ensures |s| > 1 ==> s[0] != '0'
  {
    if u < 10 then [DigitChar(u)] else Digits(u / 10) + [DigitChar(u % 10)]
  }

  /** n zero characters (none when n is not positive). */
  function Zeros(n: int): (s: string)
    ensures |s| == if n > 0 then n else 0
    ensures forall k :: 0 <= k < |s| ==> s[k] == '0'
  {
    if n <= 0 then [] else Zeros(n - 1) + ['0']
  }

  function Pow10(k: nat): (p: nat)
    ensures p >= 1
  {
    if k == 0 then 1 else 10 * Pow10(k - 1)
  }

  /** The characters the itoa loop writes, last one first: one per
      iteration while `u > 0 || wid > 0`, dividing u by ten each time. */
  function Emit(u: nat, wid: int): (s: string)
    decreases u, if wid > 0 then wid else 0
  {
    if u > 0 || wid > 0 then Emit(u / 10, wid - 1) + [DigitChar(u % 10)] else []
  }

  /** The result `itoa` computes for the unsigned value u. */
  function ItoaSpec(u: nat, wid: int): (s: string)
  {
    if u == 0 && wid <= 1 then "0" else Emit(u, wid)
  }

  /** The loop's output is u's digits after enough zeros to fill wid. */
  lemma {:induction false} EmitPadded(u: nat, wid: int)
    ensures Emit(u, wid) == Zeros(wid - (if u == 0 then 0 else |Digits(u)|)) + (if u == 0 then [] else Digits(u))
    decreases u, if wid > 0 then wid else 0
  {
    if u > 0 || wid > 0 {
      EmitPadded(u / 10, wid - 1);
      if u == 0 {
        assert Emit(u, wid) == Zeros(wid - 1) + ['0'];
      } else if u / 10 == 0 {
        assert Digits(u) == [DigitChar(u % 10)];
      } else {
        assert Digits(u) == Digits(u / 10) + [DigitChar(u % 10)];
      }
    }
  }

  /** itoa is the canonical decimal form of u, left-padded with '0' to at
      least wid characters. */
  lemma ItoaPadded(u: nat, wid: int)
    ensures ItoaSpec(u, wid) == Zeros(wid - |Digits(u)|) + Digits(u)
  {
    EmitPadded(u, wid);
    if u == 0 && wid > 1 {
      assert Zeros(wid) == Zeros(wid - 1) + ['0'];
    }
  }

  lemma {:induction false} DigitsValue(u: nat)
    ensures DecimalValue(Digits(u)) == u
  {
    if u >= 10 {
      DigitsValue(u / 10);
      var s := Digits(u);
      assert s[..|s| - 1] == Digits(u / 10);
    }
  }

  lemma {:induction false} DigitsLength(u: nat, k: nat)
    requires u < Pow10(k)
    ensures |Digits(u)| <= (if k == 0 then 1 else k)
  {
    if u >= 10 {
      DigitsLength(u / 10, k - 1);
    }
  }

  lemma {:induction false} ZerosValue(n: int, s: string)
    requires AllDigits(s)
    ensures AllDigits(Zeros(n) + s)
    ensures DecimalValue(Zeros(n) + s) == DecimalValue(s)
    decreases |s|, if n > 0 then n else 0
  {
    var z := Zeros(n);
    if s == [] {
      assert z + s == z;
      if n > 0 {
        ZerosValue(n - 1, []);
        assert Zeros(n - 1) + [] == Zeros(n - 1);
        assert z[..|z| - 1] == Zeros(n - 1);
      }
    } else {
      var s' := s[..|s| - 1];
      ZerosValue(n, s');
      assert (z + s)[..|z + s| - 1] == z + s';
    }
  }

  /** What itoa promises: only digits, denoting u, at least wid of them,
      and no more than u's own digits need otherwise. */
  lemma ItoaDigits(u: nat, wid: int)
    ensures var s := ItoaSpec(u, wid);
            AllDigits(s) && DecimalValue(s) == u
            && |s| == (if wid > |Digits(u)| then wid else |Digits(u)|)
  {
    ItoaPadded(u, wid);
    DigitsValue(u);
    ZerosValue(wid - |Digits(u)|, Digits(u));
  }

  /** A value below 10^wid fills exactly wid characters (wid >= 1). */
  lemma ItoaWidth(u: nat, wid: nat)
    requires 1 <= wid && u < Pow10(wid)
    ensures |ItoaSpec(u, wid)| == wid
  {
    DigitsLength(u, wid);
    ItoaDigits(u, wid);
  }

  lemma Pow10Twenty()
    ensures Two64 < Pow10(20)
  {
    assert Pow10(10) == 10_000_000_000;
  }

  /** A 64-bit value and a width of at most 32 fit the 32-byte buffer. */
  lemma EmitFits(u: nat, wid: int)
    requires u < Two64 && wid <= 32
    ensures |Emit(u, wid)| <= 32
  {
    Pow10Twenty();
    DigitsLength(u, 20);
    EmitPadded(u, wid);
  }

  /** Go's itoa: fills a 32-byte buffer from the end, one digit per
      iteration, and returns the filled tail. The buffer bounds the width. */
  method Itoa(i: int, wid: int) returns (s: string)
    requires IsGoInt(i) && wid <= 32
    ensures s == ItoaSpec(Uint(i), wid)
  {
    var u := Uint(i);
    if u == 0 && wid <= 1 {
      return "0";
    }
    ghost var u0, w0 := u, wid;
    EmitFits(u, wid);
    var b := new char[32];
    var bp := 32;
    var w := wid;
    while u > 0 || w > 0
      invariant 0 <= bp <= 32
      invariant |Emit(u, w)| <= bp
      invariant Emit(u0, w0) == Emit(u, w) + b[bp..]
      decreases u, if w > 0 then w else 0
    {
      ghost var tail := b[bp..];
      assert Emit(u, w) == Emit(u / 10, w - 1) + [DigitChar(u % 10)];
      bp := bp - 1;
      w := w - 1;
      b[bp] := DigitChar(u % 10);
      assert b[bp..] == [DigitChar(u % 10)] + tail;
      u := u / 10;
    }
    s := b[bp..];
  }

  // ---------------------------------------------------------------------
  // formatHeader

  /** The broken-down time formatHeader reads: `t.Date()`, `t.Clock()` and
      `t.Nanosecond()`. */
  datatype Stamp = Stamp(year: nat, month: nat, day: nat, hour: nat, min: nat, sec: nat, nsec: nat)

  predicate ValidStamp(t: Stamp)
  {
    t.year < 10000 && 1 <= t.month <= 12 && 1 <= t.day <= 31
    && t.hour < 24 && t.min < 60 && t.sec < 60 && t.nsec < 1_000_000_000
  }

  /** Three fields with a separator character between each two. */
  function Joined(a: string, x: char, b: string, y: char, c: string): (r: string)
    ensures |r| == |a| + |b| + |c| + 2
    ensures r[..|a|] == a && r[|a|] == x && r[|a| + 1..|a| + 1 + |b|] == b
    ensures r[|a| + 1 + |b|] == y && r[|a| + 2 + |b|..] == c
  {
    var r := a + [x] + b + [y] + c;
    assert r[..|a|] == a;
    assert r[|a| + 1..|a| + 1 + |b|] == b;
    assert r[|a| + 2 + |b|..] == c;
    r
  }

  /** formatHeader: "yyyy/mm/dd" when Ldate is set, then " hh:mm:ss" when
      Ltime or Lmicroseconds is, then ".uuuuuu" when Lmicroseconds is. */
  function Header(flag: Flags, t: Stamp): (h: string)
    ensures h == [] <==> Ldate !in flag && Ltime !in flag && Lmicroseconds !in flag
    ensures Ldate !in flag && h != [] ==> h[0] == ' '
  {
    if !(Ldate in flag || Ltime in flag || Lmicroseconds in flag) then ""
    else
      var date := if Ldate in flag then Joined(ItoaSpec(t.year, 4), '/', ItoaSpec(t.month, 2), '/', ItoaSpec(t.day, 2)) else "";
      var clock := if (Ltime in flag || Lmicroseconds in flag)
        then " " + Joined(ItoaSpec(t.hour, 2), ':', ItoaSpec(t.min, 2), ':', ItoaSpec(t.sec, 2))
             + (if Lmicroseconds in flag then "." + ItoaSpec(t.nsec / 1000, 6) else "")
        else "";
      date + clock
  }

  /** Two-digit fields below 100 take two characters and read back. */
  lemma Field2(u: nat)
    requires u < 100
    ensures |ItoaSpec(u, 2)| == 2 && AllDigits(ItoaSpec(u, 2)) && DecimalValue(ItoaSpec(u, 2)) == u
  {
    ItoaWidth(u, 2);
    ItoaDigits(u, 2);
  }

  /** The header has a fixed width for each combination of flags: 10 for
      the date, 9 for the time, 7 more for microseconds. */
  lemma HeaderWidth(flag: Flags, t: Stamp)
    requires ValidStamp(t)
    ensures |Header(flag, t)| ==
              (if Ldate in flag then 10 else 0)
              + (if (Ltime in flag || Lmicroseconds in flag) then 9 else 0)
              + (if (Ltime in flag || Lmicroseconds in flag) && Lmicroseconds in flag then 7 else 0)
  {
    assert Pow10(4) == 10000;
    ItoaWidth(t.year, 4);
    Field2(t.month);
    Field2(t.day);
    Field2(t.hour);
    Field2(t.min);
    Field2(t.sec);
    assert Pow10(6) == 1000000;
    ItoaWidth(t.nsec / 1000, 6);
    if !(Ldate in flag || Ltime in flag || Lmicroseconds in flag) {
      assert Ldate !in flag && !(Ltime in flag || Lmicroseconds in flag);
    }
  }

  /** The standard header is the date, a space and the time. */
  lemma HeaderStdJoin(t: Stamp)
    ensures Header(LstdFlags, t)
            == Joined(ItoaSpec(t.year, 4), '/', ItoaSpec(t.month, 2), '/', ItoaSpec(t.day, 2))
               + (" " + Joined(ItoaSpec(t.hour, 2), ':', ItoaSpec(t.min, 2), ':', ItoaSpec(t.sec, 2)))
  {
  }

  /** The standard header cut at its separators. */
  lemma HeaderStdParts(t: Stamp)
    requires ValidStamp(t)
    ensures var h := Header(LstdFlags, t);
            |h| == 19 && h[4] == '/' && h[7] == '/' && h[10] == ' ' && h[13] == ':' && h[16] == ':'
            && h[0..4] == ItoaSpec(t.year, 4) && h[5..7] == ItoaSpec(t.month, 2)
            && h[8..10] == ItoaSpec(t.day, 2) && h[11..13] == ItoaSpec(t.hour, 2)
            && h[14..16] == ItoaSpec(t.min, 2) && h[17..19] == ItoaSpec(t.sec, 2)
  {
    assert Pow10(4) == 10000;
    ItoaWidth(t.year, 4);
    ItoaWidth(t.month, 2);
    ItoaWidth(t.day, 2);
    ItoaWidth(t.hour, 2);
    ItoaWidth(t.min, 2);
    ItoaWidth(t.sec, 2);
    var date := Joined(ItoaSpec(t.year, 4), '/', ItoaSpec(t.month, 2), '/', ItoaSpec(t.day, 2));
    var time := Joined(ItoaSpec(t.hour, 2), ':', ItoaSpec(t.min, 2), ':', ItoaSpec(t.sec, 2));
    var h := Header(LstdFlags, t);
    HeaderStdJoin(t);
    assert h[..10] == date && h[11..] == time;
    assert h[0..4] == date[..4] && h[5..7] == date[5..7] && h[8..10] == date[8..];
    assert h[11..13] == time[..2] && h[14..16] == time[3..5] && h[17..19] == time[6..];
  }

  /** With the standard flags the header is "yyyy/mm/dd hh:mm:ss", and
      each field reads back as the value it came from. */
  lemma HeaderStd(t: Stamp)
    requires ValidStamp(t)
    ensures var h := Header(LstdFlags, t);
            |h| == 19 && h[4] == '/' && h[7] == '/' && h[10] == ' ' && h[13] == ':' && h[16] == ':'
            && AllDigits(h[0..4]) && DecimalValue(h[0..4]) == t.year
            && AllDigits(h[5..7]) && DecimalValue(h[5..7]) == t.month
            && AllDigits(h[8..10]) && DecimalValue(h[8..10]) == t.day
            && AllDigits(h[11..13]) && DecimalValue(h[11..13]) == t.hour
            && AllDigits(h[14..16]) && DecimalValue(h[14..16]) == t.min
            && AllDigits(h[17..19]) && DecimalValue(h[17..19]) == t.sec
  {
    HeaderStdParts(t);
    ItoaDigits(t.year, 4);
    Field2(t.month);
    Field2(t.day);
    Field2(t.hour);
    Field2(t.min);
    Field2(t.sec);
  }

  // ---------------------------------------------------------------------
  // ofmt

  /** fmt's %d: a minus sign for negative values, then the digits. */
  function IntString(i: int): (s: string)
    ensures i >= 0 ==> AllDigits(s) && DecimalValue(s) == i
    ensures i < 0 ==> |s| >= 2 && s[0] == '-' && AllDigits(s[1..]) && DecimalValue(s[1..]) == -i
  {
    DigitsValue(if i >= 0 then i else -i);
    if i >= 0 then Digits(i)
    else
      var s := "-" + Digits(-i);
      assert s[1..] == Digits(-i);
      s
  }

  /** The Lshortfile trimming scan from position i down to position 1:
      everything after the first '/' met, or the whole name. */
  function ShortFrom(file: string, i: int): string
    requires i < |file|
    decreases i
  {
    if i <= 0 then file
    else if file[i] == '/' then file[i + 1..]
    else ShortFrom(file, i - 1)
  }

  /** The file name Lshortfile prints. */
  function ShortName(file: string): string
  {
    ShortFrom(file, |file| - 1)
  }

  lemma {:induction false} ShortFromWhole(file: string, i: int)
    requires i < |file|
    requires forall k :: 1 <= k <= i ==> file[k] != '/'
    ensures ShortFrom(file, i) == file
    decreases i
  {
    if i > 0 {
      ShortFromWhole(file, i - 1);
    }
  }

  lemma {:induction false} ShortFromCut(file: string, i: int, j: int)
    requires i < |file| && 1 <= j <= i && file[j] == '/'
    ensures var r := ShortFrom(file, i);
            |r| < |file| && file[|file| - |r| - 1] == '/' && r == file[|file| - |r|..]
            && forall k :: |file| - |r| <= k <= i ==> file[k] != '/'
    decreases i
  {
    if file[i] != '/' {
      ShortFromCut(file, i - 1, j);
    }
  }

  /** Lshortfile keeps the text after the last '/' that is not the first
      character; a name with no such '/' is kept whole. */
  lemma ShortNameSpec(file: string)
    ensures var r := ShortName(file);
            ((forall k :: 1 <= k < |file| ==> file[k] != '/') ==> r == file)
            && ((exists k :: 1 <= k < |file| && file[k] == '/') ==>
                  |r| < |file| && file[|file| - |r| - 1] == '/' && r == file[|file| - |r|..]
                  && forall k :: 0 <= k < |r| ==> r[k] != '/')
  {
    var r := ShortName(file);
    if exists k :: 1 <= k < |file| && file[k] == '/' {
      var j :| 1 <= j < |file| && file[j] == '/';
      ShortFromCut(file, |file| - 1, j);
      forall k | 0 <= k < |r|
        ensures r[k] != '/'
      {
        assert r[k] == file[|file| - |r| + k];
      }
    } else {
      ShortFromWhole(file, |file| - 1);
    }
  }

  /** The Lshortfile loop of ofmt, scanning from the end of the name. */
  method ShortFile(file: string) returns (short: string)
    ensures short == ShortName(file)
  {
    short := file;
    var i := |file| - 1;
    while i > 0
      invariant i < |file|
      invariant ShortFrom(file, i) == ShortName(file)
      decreases i
    {
      if file[i] == '/' {
        short := file[i + 1..];
        return;
      }
      i := i - 1;
    }
  }

  /** What `runtime.Caller` reports: the file and line, or nothing. */
  type Caller = Option<(string, int)>

  /** "<prio>:header " unless the output is syslog; hdr is what
      formatHeader made of the current time. */
  function StampText(flag: Flags, prio: int, hdr: string): string
  {
    if LSyslog !in flag then "<" + IntString(prio) + ">:" + hdr + " " else ""
  }

  /** "(file:line) " when a call depth is given and a file flag is set,
      with "???" and 0 when the caller is unknown and only the short name
      under Lshortfile. */
  function FileInfo(flag: Flags, calldepth: int, caller: Caller): string
  {
    if calldepth > 0 && (Lshortfile in flag || Llongfile in flag) then
      var (file, line) := if caller.Some? then caller.value else ("???", 0);
      var f := if Lshortfile in flag then ShortName(file) else file;
      "(" + f + ":" + IntString(line) + ") "
    else ""
  }

  /** The text ofmt puts before the message: the stamp, the prefix when
      lPrefix is set, the caller's file and line. */
  function Lead(flag: Flags, prefix: string, calldepth: int, prio: int, hdr: string, caller: Caller): string
  {
    StampText(flag, prio, hdr) + (if LPrefix in flag then prefix else "") + FileInfo(flag, calldepth, caller)
  }

  /** ofmt: nothing for an empty message; otherwise the lead text, the
      message and a newline unless the message already ends with one. */
  function Format(flag: Flags, prefix: string, calldepth: int, prio: int, s: string, hdr: string, caller: Caller): (r: string)
    ensures r == [] <==> s == []
    ensures s != [] ==>
              var lead := Lead(flag, prefix, calldepth, prio, hdr, caller);
              && |lead| + |s| <= |r| <= |lead| + |s| + 1
              && r[..|lead|] == lead && r[|lead|..|lead| + |s|] == s && r[|r| - 1] == '\n'
  {
    if |s| == 0 then s
    else Lead(flag, prefix, calldepth, prio, hdr, caller) + s + (if s[|s| - 1] != '\n' then "\n" else "")
  }

  /** A non-empty message gives exactly one log line: the output ends with
      the message and one newline, and holds no newline the message and
      the lead text do not hold. An empty message gives nothing. */
  lemma FormatLine(flag: Flags, prefix: string, calldepth: int, prio: int, s: string, hdr: string, caller: Caller)
    ensures var r := Format(flag, prefix, calldepth, prio, s, hdr, caller);
            var lead := Lead(flag, prefix, calldepth, prio, hdr, caller);
            (s == [] <==> r == [])
            && (s != [] ==>
                  r[|r| - 1] == '\n'
                  && (s[|s| - 1] == '\n' ==> r == lead + s)
                  && (s[|s| - 1] != '\n' ==> r == lead + s + "\n"))
  {
  }

  /** The lead text does not depend on the message. */
  lemma FormatSameLead(flag: Flags, prefix: string, calldepth: int, prio: int, s1: string, s2: string, hdr: string, caller: Caller)
    requires s1 != [] && s2 != []
    ensures var r1 := Format(flag, prefix, calldepth, prio, s1, hdr, caller);
            var r2 := Format(flag, prefix, calldepth, prio, s2, hdr, caller);
            var n := |Lead(flag, prefix, calldepth, prio, hdr, caller)|;
            n <= |r1| && n <= |r2| && r1[..n] == r2[..n]
  {
  }

  /** A syslog logger without prefix or caller information writes the
      message alone, newline-terminated. */
  lemma FormatBare(flag: Flags, prefix: string, prio: int, s: string, hdr: string, caller: Caller)
    requires LSyslog in flag && LPrefix !in flag && s != []
    ensures var r := Format(flag, prefix, 0, prio, s, hdr, caller);
            r == s || r == s + "\n"
  {
  }

  /** The caller part of ofmt, with the Lshortfile loop run in place. */
  method CallerInfo(flag: Flags, calldepth: int, caller: Caller) returns (finfo: string)
    ensures finfo == FileInfo(flag, calldepth, caller)
  {
    finfo := "";
    if calldepth > 0 && (Lshortfile in flag || Llongfile in flag) {
      var file, line := "???", 0;
      if caller.Some? {
        file, line := caller.value.0, caller.value.1;
      }
      if Lshortfile in flag {
        file := ShortFile(file);
      }
      finfo := "(" + file + ":" + IntString(line) + ") ";
    }
  }

  /** ofmt: the lead text, the message, and a newline when missing. */
  method Ofmt(flag: Flags, prefix: string, calldepth: int, prio: int, s: string, hdr: string, caller: Caller)
    returns (r: string)
    ensures r == Format(flag, prefix, calldepth, prio, s, hdr, caller)
  {
    if |s| == 0 {
      return s;
    }
    var buf := StampText(flag, prio, hdr);
    if LPrefix in flag {
      buf := buf + prefix;
    }
    ghost var pre := buf;
    assert pre == StampText(flag, prio, hdr) + (if LPrefix in flag then prefix else "");
    var finfo := CallerInfo(flag, calldepth, caller);
    if |finfo| > 0 {
      buf := buf + finfo;
    } else {
      assert buf == pre + finfo;
    }
    assert buf == Lead(flag, prefix, calldepth, prio, hdr, caller);
    FormatLine(flag, prefix, calldepth, prio, s, hdr, caller);
    buf := buf + s;
    if s[|s| - 1] != '\n' {
      buf := buf + "\n";
    }
    r := buf;
  }

  // ---------------------------------------------------------------------
  // The Logger object

  /** Where a logger writes: a writer handed to New, the syslog
      connection, or the named log file. */
  datatype Dest = Writer(id: nat) | SyslogConn | LogFile(path: string)

  /** Why EnableRotation refused. */
  datatype RotationError = NotFileBacked | InvalidTime(hh: int, mm: int, ss: int)

  /** A prefix flag promises a prefix that ends in ": ", which is what
      the sub-logger constructor cuts off. */
  predicate PrefixOk(flag: Flags, prefix: string)
  {
    LPrefix in flag ==> |prefix| >= 2 && prefix[|prefix| - 2..] == ": "
  }

  /** The output channel a logger shares with its sub-loggers: whether it
      has been closed, and the lines queued on it so far. */
  class OutCh {
    var closed: bool
    var lines: seq<string>

    constructor ()
      ensures !closed && lines == []
    {
      closed := false;
      lines := [];
    }

    /** closeCh: marks the channel closed and reports whether it already
        was; the channel itself is closed only the first time. */
    method CloseCh() returns (was: bool)
      modifies this
      ensures was == old(closed) && closed && lines == old(lines)
    {
      was := closed;
      closed := true;
    }

    /** qwrite: queues a line, unless the channel is closed. */
    method Put(line: string)
      modifies this
      ensures closed == old(closed)
      ensures lines == if old(closed) then old(lines) else old(lines) + [line]
    {
      if !closed {
        lines := lines + [line];
      }
    }
  }

  class Logger {
    var prio: int
    var prefix: string
    var flag: Flags
    var out: Dest
    var name: string
    var rotN: int
    var ch: OutCh

    /** The prefix invariant (see PrefixOk). */
    predicate Valid()
      reads this
    {
      PrefixOk(flag, prefix)
    }

    /** newLogger: a fresh output channel; a non-empty prefix gets ": "
        appended and sets lPrefix. */
    method Init()
      modifies this
      ensures fresh(ch) && !ch.closed && ch.lines == []
      ensures prefix == if old(prefix) != "" then old(prefix) + ": " else old(prefix)
      ensures flag == if old(prefix) != "" then old(flag) + {LPrefix} else old(flag)
      ensures prio == old(prio) && out == old(out) && name == old(name) && rotN == old(rotN)
      ensures old(prefix) != "" || LPrefix !in old(flag) ==> Valid()
    {
      ch := new OutCh();
      if |prefix| > 0 {
        flag := flag + {LPrefix};
        prefix := prefix + ": ";
        assert prefix[|prefix| - 2..] == ": ";
      }
    }

    /** The package-level New: a logger writing to out. */
    constructor (out: Dest, prio: int, prefix: string, flag: Flags)
      ensures this.out == out && this.prio == prio && name == "" && rotN == 0
      ensures this.prefix == if prefix != "" then prefix + ": " else ""
      ensures this.flag == if prefix != "" then flag + {LPrefix} else flag
      ensures fresh(ch) && !ch.closed && ch.lines == []
      ensures prefix != "" || LPrefix !in flag ==> Valid()
    {
      this.out := out;
      this.prio := prio;
      this.prefix := prefix;
      this.flag := flag;
      name := "";
      rotN := 0;
      ch := new OutCh();
      new;
      Init();
    }

    /** NewFilelog: the caller's syslog, prefix and close bits are
        cleared, and lClose marks the logger as file backed. */
    constructor Filelog(file: string, prio: int, prefix: string, flag: Flags)
      ensures out == LogFile(file) && name == file && this.prio == prio && rotN == 0
      ensures this.prefix == if prefix != "" then prefix + ": " else ""
      ensures var f := flag - {LSyslog, LPrefix, LClose} + {LClose};
              this.flag == if prefix != "" then f + {LPrefix} else f
      ensures fresh(ch) && !ch.closed && ch.lines == []
      ensures Valid()
    {
      out := LogFile(file);
      this.prio := prio;
      this.prefix := prefix;
      this.flag := flag - {LSyslog, LPrefix, LClose} + {LClose};
      name := file;
      rotN := 0;
      ch := new OutCh();
      new;
      Init();
    }

    /** NewSyslog: as NewFilelog, but marked lSyslog instead of lClose. */
    constructor Syslog(prio: int, prefix: string, flag: Flags)
      ensures out == SyslogConn && name == "" && this.prio == prio && rotN == 0
      ensures this.prefix == if prefix != "" then prefix + ": " else ""
      ensures var f := flag - {LSyslog, LPrefix, LClose} + {LSyslog};
              this.flag == if prefix != "" then f + {LPrefix} else f
      ensures fresh(ch) && !ch.closed && ch.lines == []
      ensures Valid()
    {
      out := SyslogConn;
      this.prio := prio;
      this.prefix := prefix;
      this.flag := flag - {LSyslog, LPrefix, LClose} + {LSyslog};
      name := "";
      rotN := 0;
      ch := new OutCh();
      new;
      Init();
    }

    /** The sub-logger: same writer and channel, the parent's priority for
        LOG_NONE, the parent's flags plus lSublog, and the prefix
        "parent-child: " or "child: ". Cutting ": " off the parent's prefix
        needs it to have two characters. */
    method New(prefix: string, prio: int) returns (nl: Logger)
      requires |prefix| > 0 && LPrefix in flag ==> |this.prefix| >= 2
      ensures fresh(nl)
      ensures nl.out == out && nl.ch == ch && nl.name == "" && nl.rotN == 0
      ensures nl.prio == if prio == LogNone then this.prio else prio
      ensures nl.prefix ==
                if |prefix| == 0 then ""
                else if LPrefix in flag then this.prefix[..|this.prefix| - 2] + "-" + prefix + ": "
                else prefix + ": "
      ensures nl.flag == if |prefix| > 0 then flag + {LPrefix, LSublog} else flag + {LSublog}
      ensures |prefix| > 0 ==> nl.Valid()
    {
      var p := if prio == LogNone then this.prio else prio;
      nl := new Logger(out, p, "", flag);
      nl.ch := ch;
      if |prefix| > 0 {
        if LPrefix in flag {
          var n := |this.prefix|;
          var oldpref := this.prefix[..n - 2];
          nl.prefix := oldpref + "-" + prefix + ": ";
        } else {
          nl.prefix := prefix + ": ";
          nl.flag := nl.flag + {LPrefix};
        }
        assert nl.prefix[|nl.prefix| - 2..] == ": ";
      }
      nl.flag := nl.flag + {LSublog};
    }

    /** The sub-logger as evidently intended: with no prefix of its own it
        keeps its parent's, so that lPrefix still describes the prefix and
        sub-loggers can be nested at any depth. */
    method Sub(prefix: string, prio: int) returns (nl: Logger)
      requires Valid()
      ensures fresh(nl) && nl.Valid()
      ensures nl.out == out && nl.ch == ch && nl.name == "" && nl.rotN == 0
      ensures nl.prio == if prio == LogNone then this.prio else prio
      ensures nl.prefix ==
                if |prefix| == 0 then this.prefix
                else if LPrefix in flag then this.prefix[..|this.prefix| - 2] + "-" + prefix + ": "
                else prefix + ": "
      ensures nl.flag == if |prefix| == 0 then flag + {LSublog} else flag + {LPrefix, LSublog}
    {
      if |prefix| == 0 {
        var p := if prio == LogNone then this.prio else prio;
        nl := new Logger(out, p, "", flag);
        nl.ch := ch;
        nl.prefix := this.prefix;
        nl.flag := nl.flag + {LSublog};
        assert (LPrefix in nl.flag) == (LPrefix in flag);
      } else {
        nl := New(prefix, prio);
      }
    }

    /** Close: a no-op on a sub-logger; otherwise the shared channel is
        closed (waiting for the writer to drain it is not modelled). */
    method Close()
      modifies ch
      ensures LSublog in flag ==> ch.closed == old(ch.closed)
      ensures LSublog !in flag ==> ch.closed
      ensures ch.lines == old(ch.lines)
    {
      if LSublog in flag {
        return;
      }
      var z := ch.CloseCh();
    }

    /** Loggable: the logger's priority is a real one and p is at or
        above it. */
    function Loggable(p: int): (r: bool)
      reads this
      ensures r ==> p >= LogNone
    {
      prio >= LogNone && p >= prio
    }

    /** Output: formats the message and queues it on the shared channel;
        dropped once the channel is closed. */
    method Output(calldepth: int, p: int, s: string, hdr: string, caller: Caller)
      modifies ch
      ensures ch.closed == old(ch.closed)
      ensures ch.lines ==
                if old(ch.closed) then old(ch.lines)
                else old(ch.lines) + [Format(flag, prefix, if calldepth > 0 then calldepth + 1 else calldepth, p, s, hdr, caller)]
    {
      var depth := calldepth;
      if depth > 0 {
        depth := depth + 1;
      }
      var t := Ofmt(flag, prefix, depth, p, s, hdr, caller);
      ch.Put(t);
    }

    /** EnableRotation: only for a file-backed logger and a valid time of
        day; keeps MAX_LOGFILES logs when max is not positive. */
    method EnableRotation(hh: int, mm: int, ss: int, max: int) returns (err: Option<RotationError>)
      modifies this
      ensures LClose !in old(flag) ==> err == Some(NotFileBacked)
      ensures (LClose in old(flag) && !(0 <= hh <= 23 && 0 <= mm <= 59 && 0 <= ss <= 59))
                ==> err == Some(InvalidTime(hh, mm, ss))
      ensures err.None? <==> LClose in old(flag) && 0 <= hh <= 23 && 0 <= mm <= 59 && 0 <= ss <= 59
      ensures err.None? ==> rotN == (if max <= 0 then MaxLogfiles else max) && flag == old(flag) + {LRotate}
      ensures err.Some? ==> rotN == old(rotN) && flag == old(flag)
      ensures prio == old(prio) && prefix == old(prefix) && out == old(out) && name == old(name) && ch == old(ch)
    {
      if LClose !in flag {
        return Some(NotFileBacked);
      }
      if hh < 0 || hh > 23 || mm < 0 || mm > 59 || ss < 0 || ss > 59 {
        return Some(InvalidTime(hh, mm, ss));
      }
      var m := max;
      if m <= 0 {
        m := MaxLogfiles;
      }
      rotN := m;
      flag := flag + {LRotate};
      err := None;
    }

    method SetPrio(p: int)
      modifies this
      ensures prio == p && prefix == old(prefix) && flag == old(flag)
      ensures out == old(out) && name == old(name) && rotN == old(rotN) && ch == old(ch)
    {
      prio := p;
    }

    method SetFlags(f: Flags)
      modifies this
      ensures flag == f && prio == old(prio) && prefix == old(prefix)
      ensures out == old(out) && name == old(name) && rotN == old(rotN) && ch == old(ch)
    {
      flag := f;
    }

    method SetPrefix(p: string)
      modifies this
      ensures prefix == p && prio == old(prio) && flag == old(flag)
      ensures out == old(out) && name == old(name) && rotN == old(rotN) && ch == old(ch)
    {
      prefix := p;
    }
  }

  /** The priority filter is upward closed: what passes at p passes at
      every higher priority. */
  lemma LoggableUpward(l: Logger, p: int, q: int)
    requires l.Loggable(p) && p <= q
    ensures l.Loggable(q)
  {
  }

  /** A logger with a real priority passes exactly the priorities at or
      above it; one with a negative priority passes nothing. */
  lemma LoggableThreshold(l: Logger, p: int)
    ensures l.prio >= LogNone ==> (l.Loggable(p) <==> p >= l.prio)
    ensures l.prio < LogNone ==> !l.Loggable(p)
  {
  }

  /** Sub-loggers chain their prefixes and inherit the priority for
      LOG_NONE. */
  method SubLoggerChain() returns (childPrefix: string, grandPrefix: string, childPrio: int, grandPrio: int)
    ensures childPrefix == "parent-child: " && grandPrefix == "parent-child-g: "
    ensures childPrio == LogWarning && grandPrio == LogErr
  {
    var parent := new Logger(Writer(1), LogWarning, "parent", LstdFlags);
    assert parent.prefix == "parent: ";
    var child := parent.New("child", LogNone);
    assert child.prefix == "parent-child: ";
    var grand := child.New("g", LogErr);
    childPrefix, grandPrefix, childPrio, grandPrio := child.prefix, grand.prefix, child.prio, grand.prio;
  }

  /** A sub-logger shares its parent's channel: closing the sub-logger
      leaves it open, closing the parent closes it for both, and a later
      line from the sub-logger is dropped. */
  method CloseShared() returns (openAfterChildClose: bool, queuedBefore: nat, queuedAfter: nat)
    ensures openAfterChildClose
    ensures queuedBefore == 1 && queuedAfter == 1
  {
    var parent := new Logger(Writer(1), LogWarning, "", {LSyslog});
    var child := parent.New("", LogNone);
    var ch := parent.ch;
    child.Close();
    openAfterChildClose := !ch.closed;
    child.Output(0, LogErr, "one", "", None);
    queuedBefore := |ch.lines|;
    parent.Close();
    assert ch.closed;
    child.Output(0, LogErr, "two", "", None);
    queuedAfter := |ch.lines|;
  }

  /** A sub-logger made with an empty prefix under a prefixed logger keeps
      lPrefix but has an empty prefix, so a sub-logger of it with a prefix
      cuts two characters off an empty string (a run-time panic in Go). */
  method EmptySubPrefix() returns (prefixFlag: bool, prefixLen: nat, nestable: bool)
    ensures prefixFlag && prefixLen == 0 && !nestable
  {
    var parent := new Logger(Writer(1), LogInfo, "app", {});
    var child := parent.New("", LogNone);
    prefixFlag := LPrefix in child.flag;
    prefixLen := |child.prefix|;
    nestable := LPrefix !in child.flag || |child.prefix| >= 2;
  }

  /** With Sub, the same nesting keeps the parent's prefix and the next
      level extends it. */
  method SubNests() returns (childPrefix: string, grandPrefix: string)
    ensures childPrefix == "app: " && grandPrefix == "app-db: "
  {
    var parent := new Logger(Writer(1), LogInfo, "app", {});
    var child := parent.Sub("", LogNone);
    var grand := child.Sub("db", LogNone);
    childPrefix, grandPrefix := child.prefix, grand.prefix;
  }

  /** Rotation is accepted on a file logger at a valid time, with the
      default of seven logs, and refused at 24:00:00 and on a logger that
      writes elsewhere. */
  method RotationCases() returns (ok: Option<RotationError>, kept: int, badTime: Option<RotationError>,
                                  notFile: Option<RotationError>)
    ensures ok == None && kept == MaxLogfiles
    ensures badTime == Some(InvalidTime(24, 0, 0))
    ensures notFile == Some(NotFileBacked)
  {
    var f := new Logger.Filelog("app.log", LogInfo, "", LstdFlags);
    badTime := f.EnableRotation(24, 0, 0, 3);
    ok := f.EnableRotation(3, 0, 0, 0);
    kept := f.rotN;
    var w := new Logger(Writer(2), LogInfo, "", LstdFlags);
    notFile := w.EnableRotation(3, 0, 0, 0);
  }
}
