/** `_extract_retry_after_iso` of `mcp-acme/orchestrator.py`: finds the first
    `retry after <date> <time> UTC` in the output of `acme.sh`, checks it as
    `datetime.strptime` does and renders it as an ISO-8601 UTC timestamp. */
module RetryAfter {
  import opened Wrappers
  import opened Text

  /** A timestamp as `strptime` reads it. */
  datatype Stamp = Stamp(year: nat, month: nat, day: nat, hour: nat, minute: nat, second: nat)

  /** `t` starts with `word` when case is ignored, as under `re.I`. */
  predicate CiPrefix(t: string, word: string) {
    |word| <= |t| && forall j :: 0 <= j < |word| ==> LowerChar(t[j]) == LowerChar(word[j])
  }

  /** The length of the whitespace run `\s+` would consume at the start of
      `t`. */
  function SpaceRun(t: string): (n: nat)
    ensures n <= |t|
    ensures forall j :: 0 <= j < n ==> IsSpace(t[j])
    ensures n == |t| || !IsSpace(t[n])
  {
    if t != [] && IsSpace(t[0]) then 1 + SpaceRun(t[1..]) else 0
  }

  predicate AsciiDigit(c: char) { '0' <= c <= '9' }

  function DigitValue(c: char): nat
    requires AsciiDigit(c)
  {
    c as int - '0' as int
  }

  /** `[0-9]{4}-[0-9]{2}-[0-9]{2}` on the first ten characters. */
  predicate DateShape(s: string) {
    && |s| >= 10
    && AsciiDigit(s[0]) && AsciiDigit(s[1]) && AsciiDigit(s[2]) && AsciiDigit(s[3])
    && s[4] == '-' && AsciiDigit(s[5]) && AsciiDigit(s[6])
    && s[7] == '-' && AsciiDigit(s[8]) && AsciiDigit(s[9])
  }

  /** `[0-9]{2}:[0-9]{2}:[0-9]{2}` on the first eight characters. */
  predicate TimeShape(s: string) {
    && |s| >= 8
    && AsciiDigit(s[0]) && AsciiDigit(s[1]) && s[2] == ':'
    && AsciiDigit(s[3]) && AsciiDigit(s[4]) && s[5] == ':'
    && AsciiDigit(s[6]) && AsciiDigit(s[7])
  }

  function Two(a: char, b: char): nat
    requires AsciiDigit(a) && AsciiDigit(b)
  {
    10 * DigitValue(a) + DigitValue(b)
  }

  const RetryWord := "retry after"
  const UtcWord := "utc"

  /** The time part and what follows it: `[0-9]{2}:[0-9]{2}:[0-9]{2}\s+UTC`. */
  function TimeHere(t: string): Option<(nat, nat, nat)> {
    if !TimeShape(t) then None
    else
      var rest := t[8..];
      var n := SpaceRun(rest);
      if n == 0 || !CiPrefix(rest[n..], UtcWord) then None
      else Some((Two(t[0], t[1]), Two(t[3], t[4]), Two(t[6], t[7])))
  }

  /** The date part and what follows it. */
  function DateHere(t: string): Option<Stamp> {
    if !DateShape(t) then None
    else
      var rest := t[10..];
      var n := SpaceRun(rest);
      if n == 0 then None
      else match TimeHere(rest[n..])
        case None => None
        case Some((h, mi, s)) =>
          Some(Stamp(1000 * DigitValue(t[0]) + 100 * DigitValue(t[1]) + 10 * DigitValue(t[2]) + DigitValue(t[3]),
                     Two(t[5], t[6]), Two(t[8], t[9]), h, mi, s))
  }

  /** The pattern matched at the start of `t`. Every `\s+` of the pattern is
      followed by a character that is not whitespace, so the match is
      decided without backtracking. */
  function MatchHere(t: string): Option<Stamp> {
    if !CiPrefix(t, RetryWord) then None
    else
      var rest := t[|RetryWord|..];
      var n := SpaceRun(rest);
      if n == 0 then None else DateHere(rest[n..])
  }

  /** No match of the pattern starts before position `k` of `t`. */
  predicate NoMatchBefore(t: string, k: nat) {
    forall j :: 0 <= j < k && j <= |t| ==> MatchHere(t[j..]).None?
  }

  /** `re.search`: the match at the leftmost position where there is one. */
  function Search(t: string): (r: Option<Stamp>)
    ensures r.None? ==> NoMatchBefore(t, |t| + 1)
    ensures r.Some? ==> exists i :: 0 <= i <= |t| && MatchHere(t[i..]) == r && NoMatchBefore(t, i)
  {
    if MatchHere(t).Some? then
      assert t[0..] == t;
      MatchHere(t)
    else if t == [] then
      assert t[0..] == t;
      None
    else
      var r := Search(t[1..]);
      SearchShifts(t, r);
      r
  }

  /** What `t[1..]` says about its matches holds of `t` when `t` itself
      does not match at its start. */
  lemma SearchShifts(t: string, r: Option<Stamp>)
    requires t != [] && MatchHere(t).None?
    requires r.None? ==> NoMatchBefore(t[1..], |t[1..]| + 1)
    requires r.Some? ==> exists k :: 0 <= k <= |t[1..]| && MatchHere(t[1..][k..]) == r && NoMatchBefore(t[1..], k)
    ensures r.None? ==> NoMatchBefore(t, |t| + 1)
    ensures r.Some? ==> exists i :: 0 <= i <= |t| && MatchHere(t[i..]) == r && NoMatchBefore(t, i)
  {
    if r.None? {
      NoMatchShifts(t, |t[1..]| + 1);
    } else {
      var k :| 0 <= k <= |t[1..]| && MatchHere(t[1..][k..]) == r && NoMatchBefore(t[1..], k);
      NoMatchShifts(t, k);
      assert t[1..][k..] == t[k + 1..];
      assert MatchHere(t[k + 1..]) == r;
    }
  }

  lemma NoMatchShifts(t: string, k: nat)
    requires t != [] && MatchHere(t).None? && NoMatchBefore(t[1..], k)
    ensures NoMatchBefore(t, k + 1)
  {
    forall j | 0 <= j < k + 1 && j <= |t| ensures MatchHere(t[j..]).None? {
      if j == 0 {
        assert t[0..] == t;
      } else {
        assert t[j..] == t[1..][j - 1..];
      }
    }
  }

  /** The search finds the match at `k` when none starts before it. */
  lemma {:induction false} SearchFinds(t: string, k: nat)
    requires k <= |t| && NoMatchBefore(t, k) && MatchHere(t[k..]).Some?
    ensures Search(t) == MatchHere(t[k..])
  {
    if k == 0 {
      assert t[0..] == t;
    } else {
      NoMatchDrops(t, k);
      assert t[1..][k - 1..] == t[k..];
      SearchFinds(t[1..], k - 1);
    }
  }

  lemma NoMatchDrops(t: string, k: nat)
    requires 0 < k <= |t| && NoMatchBefore(t, k)
    ensures MatchHere(t).None? && NoMatchBefore(t[1..], k - 1)
  {
    assert t[0..] == t;
    forall j | 0 <= j < k - 1 && j <= |t[1..]| ensures MatchHere(t[1..][j..]).None? {
      assert t[1..][j..] == t[j + 1..];
    }
  }

  predicate Leap(y: nat) {
    y % 4 == 0 && (y % 100 != 0 || y % 400 == 0)
  }

  function DaysIn(y: nat, m: nat): nat
    requires 1 <= m <= 12
  {
    if m == 2 then (if Leap(y) then 29 else 28)
    else if m == 4 || m == 6 || m == 9 || m == 11 then 30
    else 31
  }

  /** The stamps `datetime.strptime(ts, "%Y-%m-%d %H:%M:%S")` accepts: a
      year from 1, a real calendar day, and a second below 60. */
  predicate ValidStamp(st: Stamp) {
    && 1 <= st.year
    && 1 <= st.month <= 12 && 1 <= st.day <= DaysIn(st.year, st.month)
    && st.hour <= 23 && st.minute <= 59 && st.second <= 59
  }

  /** Two zero-padded decimal digits, as `%m`, `%d`, `%H`, `%M`, `%S` print. */
  function Pad2(n: nat): (r: string)
    requires n < 100
    ensures |r| == 2 && AsciiDigit(r[0]) && AsciiDigit(r[1]) && Two(r[0], r[1]) == n
  {
    [DigitChar(n / 10), DigitChar(n % 10)]
  }

  /** `dt.strftime("%Y-%m-%dT%H:%M:%SZ")`. */
  function IsoOf(st: Stamp): string
    requires ValidStamp(st)
  {
    NatToString(st.year) + "-" + Pad2(st.month) + "-" + Pad2(st.day)
      + "T" + Pad2(st.hour) + ":" + Pad2(st.minute) + ":" + Pad2(st.second) + "Z"
  }

  /** The search returns the match at any position before which nothing
      matches. */
  lemma SearchFindsLeftmost(t: string)
    ensures forall k :: 0 <= k <= |t| && NoMatchBefore(t, k) && MatchHere(t[k..]).Some? ==>
              Search(t) == MatchHere(t[k..])
  {
    forall k | 0 <= k <= |t| && NoMatchBefore(t, k) && MatchHere(t[k..]).Some?
      ensures Search(t) == MatchHere(t[k..])
    {
      SearchFinds(t, k);
    }
  }

  /** `_extract_retry_after_iso`: the first match decides; a match whose date
      or time does not exist gives `None`, even if a later one would do. */
  function ExtractRetryAfterIso(t: string): (r: Option<string>)
    ensures (forall i :: 0 <= i <= |t| ==> MatchHere(t[i..]).None?) ==> r.None?
    ensures r.Some? ==>
              exists i :: 0 <= i <= |t| && NoMatchBefore(t, i) && MatchHere(t[i..]).Some?
                          && ValidStamp(MatchHere(t[i..]).value) && r.value == IsoOf(MatchHere(t[i..]).value)
    ensures forall i :: 0 <= i <= |t| && NoMatchBefore(t, i) && MatchHere(t[i..]).Some? ==>
              && (ValidStamp(MatchHere(t[i..]).value) ==> r == Some(IsoOf(MatchHere(t[i..]).value)))
              && (!ValidStamp(MatchHere(t[i..]).value) ==> r.None?)
  {
    SearchFindsLeftmost(t);
    match Search(t)
    case None => None
    case Some(st) => if ValidStamp(st) then Some(IsoOf(st)) else None
  }

  // ---------------------------------------------------------------------
  // The canonical message and what is read back from it
  // ---------------------------------------------------------------------

  /** The date and time as `acme.sh` prints them in its rate-limit message. */
  function DateText(st: Stamp): (r: string)
    requires 1000 <= st.year <= 9999 && st.month < 100 && st.day < 100
    ensures |r| == 10
  {
    var y, m, d := Pad4(st.year), Pad2(st.month), Pad2(st.day);
    [y[0], y[1], y[2], y[3], '-', m[0], m[1], '-', d[0], d[1]]
  }

  function TimeText(st: Stamp): (r: string)
    requires st.hour < 100 && st.minute < 100 && st.second < 100
    ensures |r| == 8
  {
    var h, mi, s := Pad2(st.hour), Pad2(st.minute), Pad2(st.second);
    [h[0], h[1], ':', mi[0], mi[1], ':', s[0], s[1]]
  }

  predicate Printable(st: Stamp) {
    1000 <= st.year <= 9999 && st.month < 100 && st.day < 100
    && st.hour < 100 && st.minute < 100 && st.second < 100
  }

  /** `retry after <date> <time> UTC`, followed by anything. */
  function Message(st: Stamp, tail: string): string
    requires Printable(st)
  {
    RetryWord + (" " + (DateText(st) + (" " + (TimeText(st) + (" UTC" + tail)))))
  }

  /** Four decimal digits. */
  function Pad4(n: nat): (r: string)
    requires n < 10000
    ensures |r| == 4 && AsciiDigit(r[0]) && AsciiDigit(r[1]) && AsciiDigit(r[2]) && AsciiDigit(r[3])
    ensures 1000 * DigitValue(r[0]) + 100 * DigitValue(r[1]) + 10 * DigitValue(r[2]) + DigitValue(r[3]) == n
  {
    Pad2(n / 100) + Pad2(n % 100)
  }

  lemma DivBy10(n: nat, q: nat, r: nat)
    requires r < 10 && n == 10 * q + r
    ensures n / 10 == q && n % 10 == r
  {
  }

  lemma DivBy1000(n: nat, q: nat, r: nat)
    requires r < 1000 && n == 1000 * q + r
    ensures n / 1000 == q
  {
  }

  lemma DigitArith(n: nat)
    ensures n / 100 / 10 == n / 1000 && n / 10 / 10 == n / 100
    ensures n / 100 % 10 == n / 10 / 10 % 10
    ensures n % 100 / 10 == n / 10 % 10 && n % 100 % 10 == n % 10
  {
    var a, r1 := n / 100, n % 100;
    var b, r2 := a / 10, a % 10;
    DivBy1000(n, b, 100 * r2 + r1);
    var c, r3 := n / 10, n % 10;
    DivBy10(c, a, r1 / 10);
    DivBy10(r1, r1 / 10, r3);
  }

  /** For a four-digit year, `%Y` prints the same four digits. */
  lemma YearText(n: nat)
    requires 1000 <= n <= 9999
    ensures NatToString(n) == Pad4(n)
  {
    DigitArith(n);
    var d3, d2, d1, d0 := DigitChar(n / 1000), DigitChar(n / 100 % 10), DigitChar(n / 10 % 10), DigitChar(n % 10);
    assert NatToString(n / 100) == [d3] + [d2];
    assert NatToString(n / 10) == [d3, d2] + [d1];
    assert NatToString(n) == [d3, d2, d1] + [d0];
    assert Pad4(n) == [d3, d2] + [d1, d0];
  }

  /** The first `\s+` of a piece that starts with one blank and then a
      non-blank is that blank. */
  lemma OneBlank(rest: string)
    requires rest != [] && !IsSpace(rest[0])
    ensures SpaceRun(" " + rest) == 1 && (" " + rest)[1..] == rest
  {
    assert (" " + rest)[1..] == rest;
  }

  lemma TimeRead(st: Stamp, rest: string)
    requires st.hour < 100 && st.minute < 100 && st.second < 100
    ensures TimeHere(TimeText(st) + (" UTC" + rest)) == Some((st.hour, st.minute, st.second))
  {
    var r := " UTC" + rest;
    ConcatParts(TimeText(st), r);
    OneBlank("UTC" + rest);
    assert " UTC" + rest == " " + ("UTC" + rest);
    ConcatParts("UTC", rest);
  }

  lemma DateRead(st: Stamp, rest: string)
    requires Printable(st)
    ensures DateHere(DateText(st) + (" " + (TimeText(st) + (" UTC" + rest)))) == Some(st)
  {
    var after := TimeText(st) + (" UTC" + rest);
    var dt := DateText(st);
    var t := dt + (" " + after);
    var y, m, d := Pad4(st.year), Pad2(st.month), Pad2(st.day);
    assert t[0] == y[0] && t[1] == y[1] && t[2] == y[2] && t[3] == y[3];
    assert t[4] == '-' && t[5] == m[0] && t[6] == m[1];
    assert t[7] == '-' && t[8] == d[0] && t[9] == d[1];
    assert DateShape(t);
    ConcatParts(dt, " " + after);
    OneBlank(after);
    TimeRead(st, rest);
    assert 1000 * DigitValue(t[0]) + 100 * DigitValue(t[1]) + 10 * DigitValue(t[2]) + DigitValue(t[3]) == st.year;
    assert Two(t[5], t[6]) == st.month && Two(t[8], t[9]) == st.day;
    assert t[10..][1..] == after;
    DateHereOf(t, st, after);
  }

  /** What `DateHere` reads from a piece that has the date shape. */
  lemma DateHereOf(t: string, st: Stamp, after: string)
    requires DateShape(t) && |t| >= 11
    requires 1000 * DigitValue(t[0]) + 100 * DigitValue(t[1]) + 10 * DigitValue(t[2]) + DigitValue(t[3]) == st.year
    requires Two(t[5], t[6]) == st.month && Two(t[8], t[9]) == st.day
    requires SpaceRun(t[10..]) == 1 && t[10..][1..] == after
    requires TimeHere(after) == Some((st.hour, st.minute, st.second))
    ensures DateHere(t) == Some(st)
  {
  }

  /** The message `acme.sh` prints is read back as the stamp it carries. */
  lemma MessageRead(st: Stamp, tail: string)
    requires Printable(st)
    ensures MatchHere(Message(st, tail)) == Some(st)
  {
    var after := DateText(st) + (" " + (TimeText(st) + (" UTC" + tail)));
    var t := RetryWord + (" " + after);
    ConcatParts(RetryWord, " " + after);
    OneBlank(after);
    DateRead(st, tail);
    WordIsPrefix(RetryWord, " " + after);
    MatchHereOf(t, st, after);
  }

  /** A word is matched, ignoring case, by itself. */
  lemma WordIsPrefix(w: string, x: string)
    ensures CiPrefix(w + x, w)
  {
  }

  /** What `MatchHere` reads from a piece that starts with the phrase. */
  lemma MatchHereOf(t: string, st: Stamp, after: string)
    requires CiPrefix(t, RetryWord) && |t| > |RetryWord|
    requires SpaceRun(t[|RetryWord|..]) == 1 && t[|RetryWord|..][1..] == after
    requires DateHere(after) == Some(st)
    ensures MatchHere(t) == Some(st)
  {
  }

  /** A message gives its timestamp in ISO form whatever precedes it, as
      long as no match starts earlier (the prefix may contain `retry
      after` itself), and whatever follows it. */
  lemma ExtractFromMessage(prefix: string, st: Stamp, tail: string)
    requires Printable(st) && ValidStamp(st)
    requires NoMatchBefore(prefix + Message(st, tail), |prefix|)
    ensures ExtractRetryAfterIso(prefix + Message(st, tail)) == Some(IsoOf(st))
  {
    FirstMatchIs(prefix, st, tail);
  }

  /** Only the first message counts: if its date does not exist the result
      is `None`, even when a valid message follows. */
  lemma FirstMessageDecides(prefix: string, st: Stamp, tail: string)
    requires Printable(st) && !ValidStamp(st)
    requires NoMatchBefore(prefix + Message(st, tail), |prefix|)
    ensures ExtractRetryAfterIso(prefix + Message(st, tail)) == None
  {
    FirstMatchIs(prefix, st, tail);
  }

  lemma FirstMatchIs(prefix: string, st: Stamp, tail: string)
    requires Printable(st)
    requires NoMatchBefore(prefix + Message(st, tail), |prefix|)
    ensures Search(prefix + Message(st, tail)) == Some(st)
  {
    var t := prefix + Message(st, tail);
    assert t[|prefix|..] == Message(st, tail);
    MessageRead(st, tail);
    SearchFinds(t, |prefix|);
  }

  /** For a four-digit year the result has the fixed ISO-8601 layout
      `YYYY-MM-DDTHH:MM:SSZ`, and its fields are the stamp's. */
  lemma IsoLayout(st: Stamp)
    requires ValidStamp(st) && 1000 <= st.year <= 9999
    ensures var iso := IsoOf(st);
            && |iso| == 20
            && iso[4] == '-' && iso[7] == '-' && iso[10] == 'T'
            && iso[13] == ':' && iso[16] == ':' && iso[19] == 'Z'
            && iso[..4] == Pad4(st.year)
            && Two(iso[5], iso[6]) == st.month && Two(iso[8], iso[9]) == st.day
            && Two(iso[11], iso[12]) == st.hour && Two(iso[14], iso[15]) == st.minute
            && Two(iso[17], iso[18]) == st.second
  {
    YearText(st.year);
    var y, mo, d := NatToString(st.year), Pad2(st.month), Pad2(st.day);
    var h, mi, s := Pad2(st.hour), Pad2(st.minute), Pad2(st.second);
    assert IsoOf(st) == y + "-" + mo + "-" + d + "T" + h + ":" + mi + ":" + s + "Z";
  }

  /** Without the phrase `retry after`, in any case, there is no timestamp. */
  lemma NoPhraseNoIso(t: string)
    requires forall i :: 0 <= i <= |t| ==> !CiPrefix(t[i..], RetryWord)
    ensures ExtractRetryAfterIso(t) == None
  {
    if Search(t).Some? {
      NoPhraseNoSearch(t);
    }
  }

  lemma {:induction false} NoPhraseNoSearch(t: string)
    requires forall i :: 0 <= i <= |t| ==> !CiPrefix(t[i..], RetryWord)
    ensures Search(t) == None
  {
    assert t[0..] == t;
    if t != [] {
      forall i | 0 <= i <= |t| - 1 ensures !CiPrefix(t[1..][i..], RetryWord) {
        assert t[1..][i..] == t[i + 1..];
      }
      NoPhraseNoSearch(t[1..]);
    }
  }
}
