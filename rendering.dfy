/**
 * The pure text rendering in `handle_photo` (handlers/start.py): decimal
 * integers, the nested `seconds_to_time`, the title `or`-chain, the AniList
 * link rule and the final message text.
 */
module Rendering {
  import opened Wrappers
  import opened Selection

  predicate IsDigit(c: char)
  {
    '0' <= c <= '9'
  }

  predicate AllDigits(s: string)
  {
    forall i :: 0 <= i < |s| ==> IsDigit(s[i])
  }

  function DigitChar(d: nat): (c: char)
    requires d < 10
    ensures IsDigit(c) && c as int - '0' as int == d
  {
    ('0' as int + d) as char
  }

  /** The decimal digits of `n`, most significant first, without leading zeros. */
  function Digits(n: nat): (s: string)
    ensures 1 <= |s| && AllDigits(s)
    ensures n < 10 <==> |s| == 1
    ensures s[0] != '0' || n == 0
    decreases n
  {
    if n < 10 then [DigitChar(n)] else Digits(n / 10) + [DigitChar(n % 10)]
  }

  /** The number a string of decimal digits denotes (leading zeros allowed). */
  function DigitsValue(s: string): nat
    requires AllDigits(s)
    decreases |s|
  {
    if s == [] then 0 else 10 * DigitsValue(s[..|s| - 1]) + (s[|s| - 1] as int - '0' as int)
  }

  lemma {:induction false} DigitsRoundTrip(n: nat)
    ensures DigitsValue(Digits(n)) == n
    decreases n
  {
    if n >= 10 {
      DigitsRoundTrip(n / 10);
      var s := Digits(n);
      assert s[..|s| - 1] == Digits(n / 10);
    }
  }

  /**
   * A decimal numeral as Python prints an int: an optional minus sign, then
   * digits with no leading zero (a lone `0` aside), and never `-0`.
   */
  predicate Canonical(s: string)
  {
    if 1 <= |s| && s[0] == '-' then 2 <= |s| && AllDigits(s[1..]) && s[1] != '0'
    else 1 <= |s| && AllDigits(s) && (s[0] != '0' || |s| == 1)
  }

  /** Python's `str(n)` for an int. */
  function IntString(n: int): (s: string)
    ensures Canonical(s)
  {
    if n < 0 then
      var digits := Digits(-n);
      assert ("-" + digits)[1..] == digits;
      "-" + digits
    else Digits(n)
  }

  /** Reads back what IntString writes. */
  function ParseInt(s: string): Option<int>
  {
    if 2 <= |s| && s[0] == '-' && AllDigits(s[1..]) then
      var magnitude: int := DigitsValue(s[1..]);
      Some(-magnitude)
    else if 1 <= |s| && AllDigits(s) then Some(DigitsValue(s))
    else None
  }

  lemma IntStringRoundTrip(n: int)
    ensures ParseInt(IntString(n)) == Some(n)
  {
    if n < 0 {
      var digits := Digits(-n);
      DigitsRoundTrip(-n);
      var s := "-" + digits;
      assert s[0] == '-' && s[1..] == digits;
      var magnitude: int := DigitsValue(digits);
      assert ParseInt(s) == Some(-magnitude);
    } else {
      var digits := Digits(n);
      DigitsRoundTrip(n);
      assert digits[0] != '-';
    }
  }

  /** A numeral whose first digit is not `0` denotes a positive number. */
  lemma {:induction false} LeadingDigitPositive(s: string)
    requires 1 <= |s| && AllDigits(s) && s[0] != '0'
    ensures DigitsValue(s) >= 1
    decreases |s|
  {
    if |s| > 1 {
      var prefix := s[..|s| - 1];
      assert prefix[0] == s[0];
      LeadingDigitPositive(prefix);
    }
  }

  /** Digits without a leading zero are exactly what Digits writes for their value. */
  lemma {:induction false} DigitsOfValue(s: string)
    requires 1 <= |s| && AllDigits(s) && (s[0] != '0' || |s| == 1)
    ensures Digits(DigitsValue(s)) == s
    decreases |s|
  {
    var prefix := s[..|s| - 1];
    var d := s[|s| - 1] as int - '0' as int;
    if |s| == 1 {
      assert prefix == [];
      assert DigitChar(d) == s[0];
    } else {
      assert prefix[0] == s[0];
      LeadingDigitPositive(prefix);
      DigitsOfValue(prefix);
      var n := DigitsValue(s);
      assert n / 10 == DigitsValue(prefix) && n % 10 == d;
      assert DigitChar(d) == s[|s| - 1];
      assert s == prefix + [s[|s| - 1]];
    }
  }

  /**
   * A canonical numeral is exactly what `str` prints for the number it
   * denotes, so a contract stating `Canonical(s)` and `ParseInt(s) == Some(n)`
   * pins `s` to `str(n)`.
   */
  lemma CanonicalIsPrinted(s: string)
    requires Canonical(s)
    ensures ParseInt(s).Some? && IntString(ParseInt(s).value) == s
  {
    if s[0] == '-' {
      DigitsOfValue(s[1..]);
      LeadingDigitPositive(s[1..]);
      assert s == "-" + s[1..];
    } else {
      DigitsOfValue(s);
    }
  }

  /**
   * `f"{n:02d}"`: the decimal numeral of `n`, padded with a leading zero only
   * when it is a single digit; the sign counts towards the width, so a
   * negative number is never padded.
   */
  function TwoDigits(n: int): (s: string)
    ensures 0 <= n < 100 ==> |s| == 2
    ensures 0 <= n ==> AllDigits(s) && DigitsValue(s) == n
    ensures n < 0 ==> ParseInt(s) == Some(n)
    ensures 10 <= n || n < 0 ==> Canonical(s)
    ensures 0 <= n < 10 ==> s[0] == '0' && Canonical(s[1..])
  {
    if n < 0 then
      IntStringRoundTrip(n);
      IntString(n)
    else if n < 10 then
      var s := ['0', DigitChar(n)];
      assert s[..1][..0] == [];
      assert DigitsValue(s[..1]) == 0;
      s
    else
      DigitsRoundTrip(n);
      Digits(n)
  }

  /** `seconds_to_time`: whole minutes and whole remaining seconds as `MM:SS`. */
  function SecondsToTime(seconds: real): (t: string)
    ensures 0.0 <= seconds < 6000.0 ==> |t| == 5 && t[2] == ':'
    ensures 6000.0 <= seconds ==>
      6 <= |t| && t[|t| - 3] == ':' && Canonical(t[..|t| - 3])
  {
    var minutes := (seconds / 60.0).Floor;
    var rest := (seconds - 60.0 * minutes as real).Floor;
    var t := TwoDigits(minutes) + ":" + TwoDigits(rest);
    if 6000.0 <= seconds then
      assert 100 <= minutes;
      assert 0 <= rest < 60;
      assert |TwoDigits(rest)| == 2;
      assert t[..|t| - 3] == TwoDigits(minutes);
      t
    else
      t
  }

  /** Reads `MM:SS` back as a number of seconds; the minutes may have more than two digits. */
  function ClockValue(t: string): Option<int>
  {
    if 4 <= |t| && t[|t| - 3] == ':' && AllDigits(t[..|t| - 3]) && AllDigits(t[|t| - 2..]) then
      Some(60 * DigitsValue(t[..|t| - 3]) + DigitsValue(t[|t| - 2..]))
    else None
  }

  /**
   * For a non-negative offset, the minutes field is the whole minutes and the
   * seconds field the whole seconds left over (below 60), so the clock text
   * denotes exactly the offset's whole seconds.
   */
  lemma SecondsToTimeRoundTrip(seconds: real)
    requires 0.0 <= seconds
    ensures var t := SecondsToTime(seconds);
      && 4 <= |t| && AllDigits(t[..|t| - 3]) && t[|t| - 3] == ':' && AllDigits(t[|t| - 2..])
      && DigitsValue(t[..|t| - 3]) == seconds.Floor / 60
      && DigitsValue(t[|t| - 2..]) == seconds.Floor % 60
    ensures ClockValue(SecondsToTime(seconds)) == Some(seconds.Floor)
  {
    var minutes := (seconds / 60.0).Floor;
    var rest := (seconds - 60.0 * minutes as real).Floor;
    assert 0 <= minutes;
    assert 0 <= rest < 60;
    assert rest == seconds.Floor - 60 * minutes;
    var t := SecondsToTime(seconds);
    assert t == TwoDigits(minutes) + ":" + TwoDigits(rest);
    assert t[..|t| - 3] == TwoDigits(minutes);
    assert t[|t| - 2..] == TwoDigits(rest);
  }

  lemma SecondsToTimeExamples()
    ensures SecondsToTime(120.4) == "02:00"
    ensures SecondsToTime(126.8) == "02:06"
  {
    assert (120.4 / 60.0).Floor == 2;
    assert (120.4 - 120.0).Floor == 0;
    assert (126.8 / 60.0).Floor == 2;
    assert (126.8 - 120.0).Floor == 6;
  }

  /** A zero offset prints as `00:00`. */
  lemma ZeroClock()
    ensures SecondsToTime(0.0) == "00:00"
  {
    assert (0.0 / 60.0).Floor == 0;
    assert (0.0 - 60.0 * 0 as real).Floor == 0;
    assert DigitChar(0) == '0';
    assert TwoDigits(0) == "00";
  }

  /**
   * The scene range: the clock of the start offset, ` - `, and the clock of
   * the end offset; a missing offset counts as 0.
   */
  function TimeRange(c: Candidate): (r: string)
    ensures var start := SecondsToTime(c.from.GetOr(0.0));
      |start| + 3 <= |r| && r[..|start|] == start && r[|start|..|start| + 3] == " - "
      && r[|start| + 3..] == SecondsToTime(c.to.GetOr(0.0))
    ensures c.from.None? ==> r[..5] == "00:00"
    ensures c.to.None? ==> r[|r| - 5..] == "00:00"
  {
    var start := SecondsToTime(c.from.GetOr(0.0));
    var end := SecondsToTime(c.to.GetOr(0.0));
    var r := start + " - " + end;
    assert r[..|start|] == start && r[|start|..|start| + 3] == " - " && r[|start| + 3..] == end;
    ZeroClock();
    assert c.from.None? ==> start == "00:00" && r[..5] == start;
    assert c.to.None? ==> end == "00:00" && r[|r| - 5..] == end;
    r
  }

  const UNKNOWN_TITLE := "Неизвестное аниме"

  /** Python truthiness of an optional string: present and non-empty. */
  predicate Truthy(s: Option<string>)
  {
    s.Some? && s.value != ""
  }

  /** `a or b or ... or fallback`. */
  function FirstTruthy(options: seq<Option<string>>, fallback: string): (r: string)
    ensures
      || (r == fallback && forall i :: 0 <= i < |options| ==> !Truthy(options[i]))
      || exists i :: 0 <= i < |options| && Truthy(options[i]) && options[i] == Some(r) &&
           forall j :: 0 <= j < i ==> !Truthy(options[j])
    decreases |options|
  {
    if options == [] then fallback
    else if Truthy(options[0]) then options[0].value
    else
      var r := FirstTruthy(options[1..], fallback);
      assert forall j :: 1 <= j < |options| ==> options[j] == options[1..][j - 1];
      r
  }

  /** The title preference order: native, then romaji, then English. */
  function TitleOrder(t: Titles): seq<Option<string>>
  {
    [t.native, t.romaji, t.english]
  }

  /** The catalogue titles of a candidate; a missing catalogue entry counts as one with no titles. */
  function TitlesOf(info: Option<AniList>): (r: Titles)
    ensures info.None? ==> r == Titles(None, None, None)
    ensures info.None? ==> AnimeName(r) == UNKNOWN_TITLE
    ensures info.Some? ==> r == info.value.title
  {
    match info
    case None => Titles(None, None, None)
    case Some(a) => a.title
  }

  /** The first non-empty title in preference order, else the placeholder; never empty. */
  function AnimeName(t: Titles): (name: string)
    ensures name != ""
    ensures Truthy(t.native) ==> name == t.native.value
    ensures (name == UNKNOWN_TITLE && forall i :: 0 <= i < 3 ==> !Truthy(TitleOrder(t)[i]))
      || exists i :: 0 <= i < 3 && TitleOrder(t)[i] == Some(name) && forall j :: 0 <= j < i ==> !Truthy(TitleOrder(t)[j])
  {
    FirstTruthy(TitleOrder(t), UNKNOWN_TITLE)
  }

  const ANILIST_PAGE := "https://anilist.co/anime/"

  /** The catalogue page, present exactly when `anilist.id` is truthy (present and non-zero). */
  function AniListPage(info: Option<AniList>): (link: Option<string>)
    ensures link.Some? <==> info.Some? && info.value.id.Some? && info.value.id.value != 0
    ensures link.Some? ==>
      && |ANILIST_PAGE| < |link.value|
      && link.value[..|ANILIST_PAGE|] == ANILIST_PAGE
      && Canonical(link.value[|ANILIST_PAGE|..])
      && ParseInt(link.value[|ANILIST_PAGE|..]) == info.value.id
  {
    if info.Some? && info.value.id.Some? && info.value.id.value != 0 then
      var id := info.value.id.value;
      IntStringRoundTrip(id);
      var link := ANILIST_PAGE + IntString(id);
      assert link[|ANILIST_PAGE|..] == IntString(id);
      Some(link)
    else None
  }

  /** How the episode prints: `?` when the key is missing, `None` when it is null, else the number in decimal. */
  function EpisodeText(e: Episode): (s: string)
    ensures e.EpisodeNumber? ==> Canonical(s) && ParseInt(s) == Some(e.number)
    ensures e.EpisodeAbsent? ==> s == "?"
    ensures e.EpisodeNull? ==> s == "None"
  {
    match e
    case EpisodeAbsent => "?"
    case EpisodeNull => "None"
    case EpisodeNumber(n) =>
      IntStringRoundTrip(n);
      IntString(n)
  }

  /** What the reply shows about the best match. */
  datatype MatchCard = MatchCard(title: string, episode: string, time: string, similarity: real, link: Option<string>)

  /** The card for the best match; `None` when it has no `similarity` key (a KeyError). */
  function BuildCard(best: Candidate): (card: Option<MatchCard>)
    ensures card.Some? <==> best.similarity.Some?
    ensures card.Some? ==>
      && card.value.similarity == best.similarity.value
      && card.value.title == AnimeName(TitlesOf(best.anilist))
      && card.value.title != ""
      && card.value.episode == EpisodeText(best.episode)
      && card.value.time == TimeRange(best)
      && card.value.link == AniListPage(best.anilist)
      && (card.value.link.Some? <==>
            best.anilist.Some? && best.anilist.value.id.Some? && best.anilist.value.id.value != 0)
  {
    match best.similarity
    case None => None
    case Some(similarity) =>
      Some(MatchCard(
        AnimeName(TitlesOf(best.anilist)),
        EpisodeText(best.episode),
        TimeRange(best),
        similarity,
        AniListPage(best.anilist)))
  }

  const FOUND_HEADER := "✅ <b>Найдено!</b>\n\n"
  const TITLE_LABEL := "📺 <b>Аниме:</b> "
  const EPISODE_LABEL := "📼 <b>Эпизод:</b> "
  const TIME_LABEL := "⏱ <b>Время:</b> "
  const PERCENT_LABEL := "🎯 <b>Точность:</b> "
  const LINK_HEAD := "\n\n🔗 <a href='"
  const LINK_TAIL := "'>Страница на AniList</a>"

  predicate EndsWith(s: string, suffix: string)
  {
    |suffix| <= |s| && s[|s| - |suffix|..] == suffix
  }

  /** The four labelled lines under the header: title, episode, time, and the similarity percentage. */
  function Fields(card: MatchCard, percent: string): string
  {
    TITLE_LABEL + card.title + "\n" +
    EPISODE_LABEL + card.episode + "\n" +
    TIME_LABEL + card.time + "\n" +
    PERCENT_LABEL + percent + "%"
  }

  /**
   * The final message; `percent` is the similarity as `round(x * 100, 2)`
   * prints it. The header comes first, then the labelled fields in order;
   * the link line is appended, ending in the URL and the anchor text, exactly
   * when the card has a link.
   */
  function CardText(card: MatchCard, percent: string): (text: string)
    ensures var head := FOUND_HEADER + Fields(card, percent);
      |head| <= |text| && text[..|head|] == head
    ensures card.link.None? ==> text == FOUND_HEADER + Fields(card, percent)
    ensures card.link.Some? ==> EndsWith(text, card.link.value + LINK_TAIL)
    ensures card.link.Some? ==>
      text == FOUND_HEADER + Fields(card, percent) + LINK_HEAD + card.link.value + LINK_TAIL
    ensures card.link.Some? <==> EndsWith(text, LINK_TAIL)
  {
    var body := FOUND_HEADER + Fields(card, percent);
    assert body[|body| - 1] == '%';
    match card.link
    case None =>
      assert LINK_TAIL[|LINK_TAIL| - 1] == '>';
      body
    case Some(url) =>
      var text := body + LINK_HEAD + url + LINK_TAIL;
      assert text == body + (LINK_HEAD + url + LINK_TAIL);
      assert text[..|body|] == body;
      assert text[|text| - |url + LINK_TAIL|..] == url + LINK_TAIL;
      assert text[|text| - |LINK_TAIL|..] == LINK_TAIL;
      text
  }

  /** The fixture: similarity 0.95, episode 3, offsets 120.4 to 126.8, romaji title only. */
  function Fixture(): Candidate
  {
    Candidate(Some(0.95), EpisodeNumber(3), Some(120.4), Some(126.8),
      Some(AniList(None, Titles(None, Some("Test Anime"), None))))
  }

  lemma FixtureCard()
    ensures BuildCard(Fixture()) == Some(MatchCard("Test Anime", "3", "02:00 - 02:06", 0.95, None))
  {
    var fixture := Fixture();
    var titles := Titles(None, Some("Test Anime"), None);
    assert TitlesOf(fixture.anilist) == titles;
    FixtureTitle();
    FixtureEpisode();
    FixtureTime();
    assert AniListPage(fixture.anilist) == None;
    assert BuildCard(fixture) == Some(MatchCard(AnimeName(titles), EpisodeText(EpisodeNumber(3)),
      TimeRange(fixture), 0.95, AniListPage(fixture.anilist)));
  }

  lemma FixtureTitle()
    ensures AnimeName(Titles(None, Some("Test Anime"), None)) == "Test Anime"
  {
    var titles := Titles(None, Some("Test Anime"), None);
    assert FirstTruthy(TitleOrder(titles)[1..], UNKNOWN_TITLE) == "Test Anime";
  }

  lemma FixtureEpisode()
    ensures EpisodeText(EpisodeNumber(3)) == "3"
  {
    assert Digits(3) == [DigitChar(3)] && DigitChar(3) == '3';
  }

  lemma FixtureTime()
    ensures TimeRange(Fixture()) == "02:00 - 02:06"
  {
    SecondsToTimeExamples();
    var fixture := Fixture();
    assert fixture.from.GetOr(0.0) == 120.4 && fixture.to.GetOr(0.0) == 126.8;
  }

  /** The fixture's message shows its title, episode and time, the percentage, and no link. */
  lemma FixtureText(percent: string)
    ensures CardText(BuildCard(Fixture()).value, percent) ==
      FOUND_HEADER + (
        TITLE_LABEL + "Test Anime" + "\n" +
        EPISODE_LABEL + "3" + "\n" +
        TIME_LABEL + "02:00 - 02:06" + "\n" +
        PERCENT_LABEL + percent + "%")
  {
    FixtureCard();
    var card := MatchCard("Test Anime", "3", "02:00 - 02:06", 0.95, None);
    assert CardText(card, percent) == FOUND_HEADER + Fields(card, percent);
  }
}
