/**
  The pure helpers of components/lobby/utils.ts: room-code validation,
  player counts, avatars, chat-message sanitising, the `m:ss` countdown
  display and the countdown colour.
 */
module LobbyUtils {
  import opened Basics
  import opened Text
  import opened LobbyTypes

  // ---------------------------------------------------------------------------
  // Room codes
  // ---------------------------------------------------------------------------

  /** The character class `[A-Z0-9]`. */
  predicate IsRoomCodeChar(c: char)
  {
    IsUpper(c) || IsDigit(c)
  }

  /** Matching `[A-Z0-9]{n}$` at the start of `s`, one character at a time. */
  function MatchRoomCodeChars(s: string, n: nat): (b: bool)
    ensures b <==> |s| == n && forall i :: 0 <= i < |s| ==> IsRoomCodeChar(s[i])
  {
    if n == 0 then s == []
    else
      s != [] && IsRoomCodeChar(s[0]) && MatchRoomCodeChars(s[1..], n - 1)
  }

  /** `isValidRoomCode`: the pattern `/^[A-Z0-9]{6}$/`. */
  function IsValidRoomCode(code: string): (b: bool)
    ensures b <==> |code| == 6 && forall i :: 0 <= i < |code| ==> IsRoomCodeChar(code[i])
  {
    MatchRoomCodeChars(code, 6)
  }

  /** The pattern has no case-insensitive flag: lower-case letters fail. */
  lemma RoomCodeCaseMatters()
    ensures IsValidRoomCode("ABC123")
    ensures !IsValidRoomCode("abc123")
  {
    assert !IsRoomCodeChar("abc123"[0]);
  }

  // ---------------------------------------------------------------------------
  // Player counts
  // ---------------------------------------------------------------------------

  /** `getReadyPlayerCount`: ready players, online or not. */
  function ReadyPlayerCount(players: seq<Player>): (n: nat)
    ensures n <= |players|
    ensures n == CountWhere(IsReady, players)
  {
    FilterCount(IsReady, players);
    |Filter(IsReady, players)|
  }

  /** `getOnlinePlayerCount`: online players. */
  function OnlinePlayerCount(players: seq<Player>): (n: nat)
    ensures n <= |players|
    ensures n == CountWhere(IsOnline, players)
  {
    FilterCount(IsOnline, players);
    |Filter(IsOnline, players)|
  }

  /** The ready count does not look at presence: an offline ready player
      counts as ready though nobody is online. */
  lemma ReadyCountIgnoresPresence(p: Player)
    requires p.isReady && !p.isOnline
    ensures ReadyPlayerCount([p]) == 1 && OnlinePlayerCount([p]) == 0
  {
    assert [p][..0] == [];
  }

  /** `areAllPlayersReady`: somebody is online and every online player is
      ready; offline players are ignored. */
  function AreAllPlayersReady(players: seq<Player>): (b: bool)
    ensures b <==> (exists i :: 0 <= i < |players| && players[i].isOnline)
                   && (forall i :: 0 <= i < |players| && players[i].isOnline ==> players[i].isReady)
  {
    var online := Filter(IsOnline, players);
    if |online| > 0 then
      assert online[0] in players;
      var all := forall j :: 0 <= j < |online| ==> online[j].isReady;
      var every := forall i :: 0 <= i < |players| && players[i].isOnline ==> players[i].isReady;
      assert all <==> every by {
        if all {
          forall i | 0 <= i < |players| && players[i].isOnline
            ensures players[i].isReady
          {
            assert players[i] in online;
          }
        }
        if every {
          forall j | 0 <= j < |online|
            ensures online[j].isReady
          {
            assert online[j] in players;
          }
        }
      }
      all
    else
      assert forall i :: 0 <= i < |players| && players[i].isOnline ==> players[i] in online;
      false
  }

  // ---------------------------------------------------------------------------
  // Avatars
  // ---------------------------------------------------------------------------

  /** The ten avatars of `generateAvatar`: a person emoji, a zero-width
      joiner and an occupation emoji. */
  const Avatars: seq<string> := [
    "\U{1F468}\U{200D}\U{1F4BB}", "\U{1F469}\U{200D}\U{1F4BB}",
    "\U{1F9D1}\U{200D}\U{1F393}", "\U{1F469}\U{200D}\U{1F393}",
    "\U{1F9D1}\U{200D}\U{1F52C}", "\U{1F469}\U{200D}\U{1F52C}",
    "\U{1F9D1}\U{200D}\U{1F680}", "\U{1F469}\U{200D}\U{1F680}",
    "\U{1F9D1}\U{200D}\U{1F3A8}", "\U{1F469}\U{200D}\U{1F3A8}"
  ]

  /** `generateAvatar`: the avatar at `username.length % 10`. */
  function GenerateAvatar(username: string): (a: string)
    ensures a in Avatars
  {
    Avatars[|username| % |Avatars|]
  }

  lemma AvatarsDistinct()
    ensures forall i, j :: 0 <= i < j < |Avatars| ==> Avatars[i] != Avatars[j]
  {
    forall i, j | 0 <= i < j < |Avatars|
      ensures Avatars[i] != Avatars[j]
    {
      assert Avatars[i][0] != Avatars[j][0] || Avatars[i][2] != Avatars[j][2];
    }
  }

  /** Two usernames get the same avatar exactly when their lengths agree
      modulo ten. */
  /** The avatar is indexed by the name's length: the empty name gets the
      first avatar, a one-letter name the second, and a ten-letter name
      wraps round to the first again. */
  lemma AvatarByLength()
    ensures GenerateAvatar("") == Avatars[0]
    ensures GenerateAvatar("a") == Avatars[1]
    ensures GenerateAvatar("abcdefghij") == Avatars[0]
  {
  }

  lemma SameAvatarIff(u: string, v: string)
    ensures GenerateAvatar(u) == GenerateAvatar(v) <==> |u| % 10 == |v| % 10
  {
    AvatarsDistinct();
  }

  // ---------------------------------------------------------------------------
  // Chat messages
  // ---------------------------------------------------------------------------

  const MaxMessageLength: nat := 200

  /** `sanitizeMessage`: trim, keep the first 200 characters, then delete
      every `<` and `>`. */
  function SanitizeMessage(content: string): (r: string)
    ensures |r| <= MaxMessageLength
    ensures '<' !in r && '>' !in r
  {
    Without(Take(Trim(content), MaxMessageLength), {'<', '>'})
  }

  /** Sanitising introduces no character. */
  lemma SanitizeKeepsInputChars(content: string, c: char)
    ensures c in SanitizeMessage(content) ==> c in content && c != '<' && c != '>'
  {
    var t := Take(Trim(content), MaxMessageLength);
    TrimSubset(content, c);
    if c in t {
      var i :| 0 <= i < |t| && t[i] == c;
      assert Trim(content)[i] == c;
    }
  }

  /** The messages sanitising leaves alone are exactly the trimmed ones of
      at most 200 characters without angle brackets. */
  lemma SanitizeFixedPoint(content: string)
    ensures SanitizeMessage(content) == content <==>
              IsTrimmed(content) && |content| <= MaxMessageLength && '<' !in content && '>' !in content
  {
    if IsTrimmed(content) && |content| <= MaxMessageLength && '<' !in content && '>' !in content {
      TrimOfTrimmed(content);
      WithoutNone(content, {'<', '>'});
    }
    if SanitizeMessage(content) == content {
      var t := Trim(content);
      assert |t| == |content|;
      var a := SkipSpaces(content, 0);
      if a < |content| {
        assert t == content[a..SkipSpacesBack(content, |content|)];
      }
      assert t == content;
    }
  }

  /** Sanitising is not idempotent: deleting a bracket can expose
      whitespace that the first trim did not see. */
  lemma SanitizeNotIdempotent()
    ensures SanitizeMessage("< a") == " a"
    ensures SanitizeMessage(" a") == "a"
  {
    SanitizeFirst();
    SanitizeSecond();
  }

  lemma SanitizeFirst()
    ensures SanitizeMessage("< a") == " a"
  {
    TrimOfTrimmed("< a");
    DropLeadingBracket();
  }

  lemma SanitizeSecond()
    ensures SanitizeMessage(" a") == "a"
  {
    TrimLeadingSpace();
    WithoutNone("a", {'<', '>'});
  }

  lemma DropLeadingBracket()
    ensures Without("< a", {'<', '>'}) == " a"
  {
    assert "< a" == "<" + " a";
    WithoutAppend("<", " a", {'<', '>'});
    WithoutNone(" a", {'<', '>'});
    assert "<"[..0] == [];
  }

  lemma TrimLeadingSpace()
    ensures Trim(" a") == "a"
  {
    assert SkipSpaces(" a", 0) == 1;
    assert SkipSpacesBack(" a", 2) == 2;
  }

  // ---------------------------------------------------------------------------
  // Message times
  // ---------------------------------------------------------------------------

  /** How the age of a chat message is shown: a relative text, or the
      message's date in the browser's locale, which is kept abstract. */
  datatype TimeLabel = Relative(text: string) | LocaleDate

  /** The label reads `<n><unit> ago`. */
  predicate Reads(shown: TimeLabel, n: nat, unit: char)
  {
    shown.Relative? && shown.text == NatToString(n) + [unit] + " ago"
  }

  /** `formatMessageTime`, given the age `now - timestamp` in milliseconds:
      "Just now" under a minute, whole minutes under an hour, whole hours
      under a day, and the date after that. Ages are floored, and an age
      from the future counts as "Just now". */
  function FormatMessageTime(age: int): (r: TimeLabel)
    ensures r == Relative("Just now") <==> age < 60000
    ensures r.LocaleDate? <==> age >= 86400000
    ensures 60000 <= age < 3600000 ==> Reads(r, age / 60000, 'm')
    ensures 3600000 <= age < 86400000 ==> Reads(r, age / 3600000, 'h')
  {
    if age < 60000 then Relative("Just now")
    else
      assert "Just now"[7] == 'w';
      if age < 3600000 then Relative(NatToString(age / 60000) + "m ago")
      else if age < 86400000 then Relative(NatToString(age / 3600000) + "h ago")
      else LocaleDate
  }

  /** "Just now" is not of the form `<n><unit> ago`. */
  lemma JustNowShowsNoAmount(n: nat, unit: char)
    ensures !Reads(Relative("Just now"), n, unit)
  {
    var t := NatToString(n) + [unit] + " ago";
    assert t[|t| - 1] == 'o' && "Just now"[7] == 'w';
  }

  /** Whatever amount a relative label shows is the age in whole minutes
      (1 to 59) or whole hours (1 to 23), rounded down. */
  lemma FormatMessageTimeAmount(age: int, n: nat, unit: char)
    requires Reads(FormatMessageTime(age), n, unit)
    ensures unit == 'm' || unit == 'h'
    ensures unit == 'm' ==> 1 <= n <= 59 && 60000 * n <= age < 60000 * (n + 1)
    ensures unit == 'h' ==> 1 <= n <= 23 && 3600000 * n <= age < 3600000 * (n + 1)
  {
    var r := FormatMessageTime(age);
    var t := NatToString(n) + [unit] + " ago";
    if age < 60000 {
      JustNowShowsNoAmount(n, unit);
      assert false;
    }
    var m := if age < 3600000 then age / 60000 else age / 3600000;
    var u := if age < 3600000 then 'm' else 'h';
    assert Reads(r, m, u);
    var t' := NatToString(m) + [u] + " ago";
    assert |NatToString(m)| == |NatToString(n)| by {
      assert |t| == |t'|;
    }
    assert NatToString(m) == NatToString(n) by {
      forall i | 0 <= i < |NatToString(n)|
        ensures NatToString(m)[i] == NatToString(n)[i]
      {
        assert t[i] == t'[i];
      }
    }
    assert t[|NatToString(n)|] == t'[|NatToString(m)|];
    if m != n {
      NatToStringInjective(m, n);
    }
  }

  // ---------------------------------------------------------------------------
  // Countdown display
  // ---------------------------------------------------------------------------

  /** `formatCountdownTime` on whole seconds: "0:00" when nothing is left,
      otherwise minutes, a colon and the seconds padded to two digits. */
  function FormatCountdownTime(seconds: int): (r: string)
    ensures seconds <= 0 ==> r == "0:00"
    ensures |r| >= 4 && r[|r| - 3] == ':'
    ensures AllDigits(r[..|r| - 3]) && AllDigits(r[|r| - 2..])
    ensures seconds > 0 ==> r[..|r| - 3] == NatToString(seconds / 60)
    ensures seconds > 0 ==> r[|r| - 2..] == PadStart(NatToString(seconds % 60), 2, '0')
  {
    if seconds <= 0 then "0:00"
    else
      var mm := NatToString(seconds / 60);
      var ss := PadStart(NatToString(seconds % 60), 2, '0');
      assert |NatToString(seconds % 60)| <= 2;
      var r := mm + ":" + ss;
      assert r[..|r| - 3] == mm && r[|r| - 2..] == ss;
      r
  }

  /** A number below 60, padded to two digits, reads back as itself. */
  lemma PaddedSecondsValue(n: nat)
    requires n < 60
    ensures var ss := PadStart(NatToString(n), 2, '0');
            |ss| == 2 && AllDigits(ss) && DigitsValue(ss) == n
  {
    var s := NatToString(n);
    NatToStringRoundTrip(n);
    if n < 10 {
      assert PadStart(s, 2, '0') == "0" + s;
      DigitsValueLeadingZero(s);
    } else {
      assert |s| == 2;
    }
  }

  /** The time a display shows: 60 times the minutes plus the seconds. */
  function ReadDisplay(r: string): int
    requires |r| >= 4 && AllDigits(r[..|r| - 3]) && AllDigits(r[|r| - 2..])
  {
    60 * DigitsValue(r[..|r| - 3]) + DigitsValue(r[|r| - 2..])
  }

  /** Reading the display back gives the time: the minutes numeral has no
      leading zero, the seconds field is below 60, and
      60 * minutes + seconds is the input. */
  lemma FormatCountdownTimeReadsBack(seconds: int)
    requires seconds > 0
    ensures var r := FormatCountdownTime(seconds);
            && (r[..|r| - 3] == "0" || r[0] != '0')
            && DigitsValue(r[|r| - 2..]) < 60
            && ReadDisplay(r) == seconds
  {
    NatToStringRoundTrip(seconds / 60);
    PaddedSecondsValue(seconds % 60);
  }

  /** Different positive times never share a display. */
  lemma FormatCountdownTimeInjective(a: int, b: int)
    requires a > 0 && b > 0
    ensures FormatCountdownTime(a) == FormatCountdownTime(b) ==> a == b
  {
    FormatCountdownTimeReadsBack(a);
    FormatCountdownTimeReadsBack(b);
  }

  // ---------------------------------------------------------------------------
  // Countdown colour
  // ---------------------------------------------------------------------------

  datatype CountdownColor = Green | Yellow | Red

  /** The CSS colour of each band. */
  function Hex(c: CountdownColor): string
  {
    match c
    case Green => "#10B981"
    case Yellow => "#F59E0B"
    case Red => "#EF4444"
  }

  /** Red < Yellow < Green: how much time is left. */
  function Rank(c: CountdownColor): nat
  {
    match c
    case Red => 0
    case Yellow => 1
    case Green => 2
  }

  /** For a positive divisor, comparing a quotient with n/10 is comparing
      cross products. */
  lemma QuotientAbove(t: int, total: int, n: int)
    requires total > 0
    ensures t as real / total as real > n as real / 10.0 <==> 10 * t > n * total
  {
    var q := t as real / total as real;
    assert q * total as real == t as real;
    if 10 * t > n * total {
      assert q * total as real * 10.0 > n as real * total as real;
    }
    if q > n as real / 10.0 {
      assert q * total as real > n as real / 10.0 * total as real;
    }
  }

  /** The same comparison for a negative divisor, which flips it. */
  lemma QuotientAboveNegative(t: int, total: int, n: int)
    requires total < 0
    ensures t as real / total as real > n as real / 10.0 <==> 10 * t < n * total
  {
    QuotientAbove(-t, -total, n);
    assert t as real / total as real == (-t) as real / (-total) as real;
  }

  lemma QuotientCompare(t: int, total: int, n: int)
    requires total != 0
    ensures total > 0 ==> (t as real / total as real > n as real / 10.0 <==> 10 * t > n * total)
    ensures total < 0 ==> (t as real / total as real > n as real / 10.0 <==> 10 * t < n * total)
  {
    if total > 0 {
      QuotientAbove(t, total, n);
    } else {
      QuotientAboveNegative(t, total, n);
    }
  }

  /** `getCountdownColor`: the share of time left decides the band, green
      above 0.6, yellow above 0.3, red otherwise. A zero total divides to
      an infinity of the sign of the time left, or to NaN for 0/0, which
      fails both comparisons. */
  function GetCountdownColor(timeRemaining: int, totalTime: int): (c: CountdownColor)
    ensures totalTime > 0 ==> (c == Green <==> 10 * timeRemaining > 6 * totalTime)
    ensures totalTime > 0 ==> (c == Yellow <==> 3 * totalTime < 10 * timeRemaining <= 6 * totalTime)
    ensures totalTime > 0 ==> (c == Red <==> 10 * timeRemaining <= 3 * totalTime)
    ensures totalTime < 0 ==> (c == Green <==> 10 * timeRemaining < 6 * totalTime)
    ensures totalTime < 0 ==> (c == Red <==> 10 * timeRemaining >= 3 * totalTime)
    ensures totalTime == 0 ==> (c == Green <==> timeRemaining > 0) && c != Yellow
  {
    if totalTime == 0 then
      if timeRemaining > 0 then Green else Red
    else
      var percentage := timeRemaining as real / totalTime as real;
      QuotientCompare(timeRemaining, totalTime, 6);
      QuotientCompare(timeRemaining, totalTime, 3);
      if percentage > 0.6 then Green
      else if percentage > 0.3 then Yellow
      else Red
  }

  /** For a fixed positive total, less time left never gives a colour
      nearer to green. */
  lemma CountdownColorMonotone(t1: int, t2: int, totalTime: int)
    requires totalTime > 0 && t1 <= t2
    ensures Rank(GetCountdownColor(t1, totalTime)) <= Rank(GetCountdownColor(t2, totalTime))
  {
  }
}
