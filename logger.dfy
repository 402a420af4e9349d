/**
 * The logger's layout state (internal/logger/logger.go): the prefix and
 * suffix, padded or cut to their configured widths, and the width of the
 * widest log-type name. Colours and output are not modelled.
 */
module Logger {
  import opened Wrappers

  /** logtype: a uint8. */
  newtype LogType = x: int | 0 <= x < 256

  const Debug: LogType := 0
  const Info: LogType := 1
  const Warn: LogType := 2
  const Danger: LogType := 3
  const Fatal: LogType := 4

  /** The parts of Config that shape the layout. */
  datatype Config = Config(
    prefix: string,
    suffix: string,
    logFormat: map<LogType, string>,
    debug: bool,
    pWidth: int,
    sWidth: int)

  /** The names of DefaultConfig. */
  const DefaultFormat: map<LogType, string> :=
    map[Debug := "DEBUG", Info := "INFO", Warn := "WARNING", Danger := "DANGER", Fatal := "FATAL"]

  /** DefaultConfig: empty prefix and suffix, widths 8 and 20. */
  const DefaultConfig := Config("", "", DefaultFormat, false, 8, 20)

  /** n spaces. */
  function Spaces(n: nat): (r: string)
    ensures |r| == n && forall i :: 0 <= i < n ==> r[i] == ' '
  {
    if n == 0 then "" else Spaces(n - 1) + " "
  }

  /**
   * calc: a string that fits is padded with spaces to exactly `space`; a
   * longer one is cut to space - 4 characters plus "...", unless space is
   * not positive, when it is kept. None is the out-of-range slice (a Go
   * panic) when a longer string meets a space of 1 to 3.
   */
  function Calc(str: string, space: int): (r: Option<string>)
    ensures r.None? <==> |str| > space && 0 < space < 4
    ensures |str| <= space ==>
      r.Some? && |r.value| == space && r.value[..|str|] == str &&
      forall i :: |str| <= i < space ==> r.value[i] == ' '
    ensures |str| > space >= 4 ==>
      r.Some? && |r.value| == space - 1 &&
      r.value[..space - 4] == str[..space - 4] && r.value[space - 4..] == "..."
    ensures |str| > space && space <= 0 ==> r == Some(str)
  {
    if |str| > space then
      if space > 0 then
        if space - 4 < 0 then None else Some(str[..space - 4] + "...")
      else Some(str)
    else Some(str + Spaces(space - |str|))
  }

  /** w is the length of the longest name, or 0 when there are none. */
  ghost predicate IsWidest(formats: map<LogType, string>, w: int)
  {
    w >= 0 && (forall k :: k in formats ==> |formats[k]| <= w) &&
    (w == 0 || exists k :: k in formats && |formats[k]| == w)
  }

  class Log {
    var config: Config
    var logTypeWidth: int

    /**
     * NewLogger: the configuration with its prefix and suffix set through
     * calc, and the width of the longest log-type name.
     */
    constructor (c: Config)
      requires Calc(c.prefix, c.pWidth).Some? && Calc(c.suffix, c.sWidth).Some?
      ensures config == c.(prefix := Calc(c.prefix, c.pWidth).value, suffix := Calc(c.suffix, c.sWidth).value)
      ensures IsWidest(c.logFormat, logTypeWidth)
    {
      config := c.(prefix := Calc(c.prefix, c.pWidth).value, suffix := Calc(c.suffix, c.sWidth).value);
      var w := WidestName(c.logFormat);
      logTypeWidth := w;
    }

    /** The loop of NewLogger: a running maximum over the names, in map order. */
    static method WidestName(formats: map<LogType, string>) returns (w: int)
      ensures IsWidest(formats, w)
    {
      w := 0;
      var rest := formats.Keys;
      while rest != {}
        invariant rest <= formats.Keys
        invariant w >= 0 && forall k :: k in formats.Keys - rest ==> |formats[k]| <= w
        invariant w == 0 || exists k :: k in formats.Keys - rest && |formats[k]| == w
        decreases |rest|
      {
        var k :| k in rest;
        if |formats[k]| > w {
          w := |formats[k]|;
        }
        rest := rest - {k};
      }
    }

    /** SetPrefix: the string through calc at the prefix width. */
    method SetPrefix(str: string)
      requires Calc(str, config.pWidth).Some?
      modifies this`config
      ensures config == old(config).(prefix := Calc(str, old(config).pWidth).value)
    {
      config := config.(prefix := Calc(str, config.pWidth).value);
    }

    /** SetSuffix: the string through calc at the suffix width. */
    method SetSuffix(str: string)
      requires Calc(str, config.sWidth).Some?
      modifies this`config
      ensures config == old(config).(suffix := Calc(str, old(config).sWidth).value)
    {
      config := config.(suffix := Calc(str, config.sWidth).value);
    }

    method GetPrefix() returns (s: string)
      ensures s == config.prefix
    {
      s := config.prefix;
    }

    method GetSuffix() returns (s: string)
      ensures s == config.suffix
    {
      s := config.suffix;
    }

    /** Replicate: a new logger holding a copy of this one's state. */
    method Replicate() returns (r: Log)
      ensures fresh(r) && r.config == config && r.logTypeWidth == logTypeWidth
    {
      r := new Log.Copy(this);
    }

    constructor Copy(l: Log)
      ensures config == l.config && logTypeWidth == l.logTypeWidth
    {
      config := l.config;
      logTypeWidth := l.logTypeWidth;
    }
  }

  /** A prefix set through calc at width w >= 4 is never wider than w. */
  lemma CalcFits(str: string, w: int)
    requires w >= 4
    ensures Calc(str, w).Some? && |Calc(str, w).value| <= w
  {
  }

  /** A string that fits comes back from its padding by dropping the trailing spaces. */
  lemma {:induction false} CalcPadRoundTrip(str: string, w: int)
    requires |str| <= w
    ensures TrimSpaces(Calc(str, w).value) == TrimSpaces(str)
  {
    var p := Calc(str, w).value;
    TrimPadded(str, w - |str|);
    assert p == str + Spaces(w - |str|);
  }

  /** The string without its trailing spaces. */
  function TrimSpaces(s: string): (r: string)
    ensures |r| <= |s| && r == s[..|r|]
    ensures |r| > 0 ==> r[|r| - 1] != ' '
  {
    if |s| > 0 && s[|s| - 1] == ' ' then TrimSpaces(s[..|s| - 1]) else s
  }

  lemma {:induction false} TrimPadded(s: string, n: nat)
    ensures TrimSpaces(s + Spaces(n)) == TrimSpaces(s)
  {
    if n > 0 {
      var t := s + Spaces(n);
      assert t[|t| - 1] == ' ';
      assert t[..|t| - 1] == s + Spaces(n - 1);
      TrimPadded(s, n - 1);
    } else {
      assert s + Spaces(n) == s;
    }
  }

  /** The widest default name is "WARNING". */
  lemma DefaultFormatWidth()
    ensures IsWidest(DefaultFormat, 7)
  {
    assert |DefaultFormat[Warn]| == 7;
  }
}
