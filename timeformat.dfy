/**
 * Delivery-time normalisation. Every component that shows or stores a time
 * looks for the first match of the regular expression `(\d{1,2}):(\d{2})`
 * and zero-pads the hour. Without a match the order form stores "08:00",
 * while the three display helpers (store list, calendar, order list) show
 * the first five characters of the text.
 */
module TimeFormat {
  import opened Wrappers
  import opened Strings

  /** An `HH:MM`-shaped string: five characters, digits around a colon. */
  predicate IsClock(t: string) {
    |t| == 5 && IsDigit(t[0]) && IsDigit(t[1]) && t[2] == ':' && IsDigit(t[3]) && IsDigit(t[4])
  }

  /**
   * The regular expression tried at position `i` alone, already formatted as
   * `HH:MM`. The greedy `\d{1,2}` tries two hour digits first and falls back to one.
   */
  function MatchAt(s: string, i: nat): (r: Option<string>)
    ensures r.Some? ==> IsClock(r.value)
  {
    if i + 5 <= |s| && IsDigit(s[i]) && IsDigit(s[i + 1]) && s[i + 2] == ':' && IsDigit(s[i + 3]) && IsDigit(s[i + 4])
    then Some(s[i..i + 5])
    else if i + 4 <= |s| && IsDigit(s[i]) && s[i + 1] == ':' && IsDigit(s[i + 2]) && IsDigit(s[i + 3])
    then Some(['0'] + s[i..i + 4])
    else None
  }

  /** The leftmost match at or after position `i`, as `String.prototype.match` finds it. */
  function FirstMatchFrom(s: string, i: nat): (r: Option<string>)
    ensures r.None? <==> forall j :: i <= j < |s| ==> MatchAt(s, j).None?
    ensures r.Some? ==> exists j :: i <= j < |s| && MatchAt(s, j) == r && forall k :: i <= k < j ==> MatchAt(s, k).None?
    decreases |s| - i
  {
    if i >= |s| then None
    else if MatchAt(s, i).Some? then MatchAt(s, i)
    else FirstMatchFrom(s, i + 1)
  }

  function FirstMatch(s: string): Option<string> {
    FirstMatchFrom(s, 0)
  }

  /** `formatTimeStr` of the order form: "08:00" when empty or when nothing matches. */
  function FormatTimeStr(t: string): (r: string)
    ensures IsClock(r)
    ensures t == "" ==> r == "08:00"
    ensures t != "" && FirstMatch(t).None? ==> r == "08:00"
    ensures t != "" && FirstMatch(t).Some? ==> r == FirstMatch(t).value
  {
    if t == "" then "08:00"
    else match FirstMatch(t)
      case Some(m) => m
      case None => "08:00"
  }

  /** `formatDisplayTime`: as `FormatTimeStr`, but with no match it keeps the first five characters. */
  function FormatDisplayTime(t: string): (r: string)
    ensures t == "" ==> r == "08:00"
    ensures t != "" && FirstMatch(t).Some? ==> r == FirstMatch(t).value && IsClock(r)
    ensures t != "" && FirstMatch(t).None? ==> r == t[..if |t| < 5 then |t| else 5]
  {
    if t == "" then "08:00"
    else match FirstMatch(t)
      case Some(m) => m
      case None => t[..if |t| < 5 then |t| else 5]
  }

  /** An `HH:MM` string is its own first match. */
  lemma ClockMatchesItself(t: string)
    requires IsClock(t)
    ensures FirstMatch(t) == Some(t)
  {
    assert t[0..5] == t;
    assert MatchAt(t, 0) == Some(t);
  }

  /** Normalising an already normalised time changes nothing. */
  lemma FormatTimeStrIdempotent(t: string)
    ensures FormatTimeStr(FormatTimeStr(t)) == FormatTimeStr(t)
  {
    ClockMatchesItself(FormatTimeStr(t));
  }

  /** On a time `formatTimeStr` produced, the display formatting agrees with it. */
  lemma DisplayOfNormalised(t: string)
    ensures FormatDisplayTime(FormatTimeStr(t)) == FormatTimeStr(t)
  {
    ClockMatchesItself(FormatTimeStr(t));
  }

  /** A single-digit hour is zero-padded: "9:30" becomes "09:30". */
  lemma FormatPadsHour()
    ensures FormatTimeStr("9:30") == "09:30"
  {
    var h := "9:30";
    assert h[0..4] == h;
    assert ['0'] + h == "09:30";
    assert MatchAt(h, 0) == Some("09:30");
  }

  /** The first `H:MM` occurrence wins, so a leading date is skipped. */
  lemma FormatSkipsDatePrefix()
    ensures FormatTimeStr("2024-05-01 07:45") == "07:45"
  {
    var d := "2024-05-01 07:45";
    forall j | 0 <= j < 11 ensures MatchAt(d, j).None? {
    }
    assert d[11..16] == "07:45";
    assert MatchAt(d, 11) == Some("07:45");
  }

  /** With no match the order form falls back to "08:00" but the display keeps the first five characters. */
  lemma FallbacksDiffer()
    ensures FormatTimeStr("noon") == "08:00"
    ensures FormatDisplayTime("noon") == "noon"
  {
    var n := "noon";
    forall j | 0 <= j < |n| ensures MatchAt(n, j).None? {
    }
    assert n[..4] == n;
  }
}
