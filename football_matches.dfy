/** The digest builder of the football-matches notifier: each fetched match
    record becomes one display line, the first five lines go into the message,
    and an empty fetch gives a fixed sentinel message. */
module FootballMatches {
  import opened Wrappers
  import opened KickoffTime
  import opened Text

  /** `utcDate` as `datetime.fromisoformat` sees it: a UTC time of day, or a
      string it rejects. */
  datatype Timestamp = Iso(utc: Clock) | Unparseable

  /** One element of the provider's `matches` array. None stands for a key
      that is absent (at either level, for `homeTeam.name` and the like). */
  datatype MatchRecord = MatchRecord(
    homeTeam: Option<string>,
    awayTeam: Option<string>,
    competition: Option<string>,
    utcDate: Option<Timestamp>)

  /** The keys a record is read through, in the order they are read. */
  datatype Field = HomeTeamName | AwayTeamName | CompetitionName | UtcDate

  /** What ends a formatting call: a `KeyError` or the `ValueError` of `fromisoformat`. */
  datatype FormatError = MissingKey(field: Field) | InvalidIsoFormat

  /** How many lines the digest keeps (`top_matches[:5]`). */
  const TopCount := 5

  const Header := "*Today's Top Football Matches* \n\n"
  const NoMatchesMessage := "No top matches today."

  function Min(a: int, b: int): int
  {
    if a <= b then a else b
  }

  /** A record every key lookup and the timestamp parse succeed on. */
  predicate Complete(m: MatchRecord)
  {
    && m.homeTeam.Some?
    && m.awayTeam.Some?
    && m.competition.Some?
    && m.utcDate.Some?
    && m.utcDate.value.Iso?
  }

  /** The loop body of `format_matches`: the display line of one record, or
      the error of the first lookup that fails. */
  function FormatMatch(m: MatchRecord): (r: Result<string, FormatError>)
    ensures r.Success? <==> Complete(m)
    ensures m.homeTeam.None? ==> r == Failure(MissingKey(HomeTeamName))
    ensures m.homeTeam.Some? && m.awayTeam.None? ==> r == Failure(MissingKey(AwayTeamName))
    ensures m.homeTeam.Some? && m.awayTeam.Some? && m.competition.None?
            ==> r == Failure(MissingKey(CompetitionName))
    ensures m.homeTeam.Some? && m.awayTeam.Some? && m.competition.Some? && m.utcDate.None?
            ==> r == Failure(MissingKey(UtcDate))
    ensures m.homeTeam.Some? && m.awayTeam.Some? && m.competition.Some? && m.utcDate == Some(Unparseable)
            ==> r == Failure(InvalidIsoFormat)
    ensures r.Success? ==>
      r.value == m.homeTeam.value + " vs " + m.awayTeam.value
                 + " (" + m.competition.value + ") at " + Kickoff(m.utcDate.value.utc) + " NG"
  {
    match m.homeTeam
    case None => Failure(MissingKey(HomeTeamName))
    case Some(home) =>
      match m.awayTeam
      case None => Failure(MissingKey(AwayTeamName))
      case Some(away) =>
        match m.competition
        case None => Failure(MissingKey(CompetitionName))
        case Some(competition) =>
          match m.utcDate
          case None => Failure(MissingKey(UtcDate))
          case Some(Unparseable) => Failure(InvalidIsoFormat)
          case Some(Iso(utc)) =>
            Success(home + " vs " + away + " (" + competition + ") at " + Kickoff(utc) + " NG")
  }

  /** The kickoff can be read back from the end of a line: the five characters
      before the closing " NG" parse as the UTC time moved one hour on. */
  lemma LineShowsLagosKickoff(m: MatchRecord)
    requires Complete(m)
    ensures var line := FormatMatch(m).value;
      && |line| >= 8
      && line[|line| - 3..] == " NG"
      && Parse(line[|line| - 8..|line| - 3])
         == Some(Clock((m.utcDate.value.utc.hour + 1) % 24, m.utcDate.value.utc.minute))
  {
    var line := FormatMatch(m).value;
    var k := Kickoff(m.utcDate.value.utc);
    var front := m.homeTeam.value + " vs " + m.awayTeam.value + " (" + m.competition.value + ") at ";
    assert line == front + k + " NG";
    assert line[|line| - 8..|line| - 3] == k;
  }

  /** No name of the record holds a newline. */
  predicate SingleLineNames(m: MatchRecord)
  {
    && (m.homeTeam.Some? ==> '\n' !in m.homeTeam.value)
    && (m.awayTeam.Some? ==> '\n' !in m.awayTeam.value)
    && (m.competition.Some? ==> '\n' !in m.competition.value)
  }

  /** A line spans several lines of the message only if a name does. */
  lemma LineIsSingleLine(m: MatchRecord)
    requires Complete(m) && SingleLineNames(m)
    ensures '\n' !in FormatMatch(m).value
  {
  }

  /** Every record formatted in order; the first failure ends the whole pass. */
  function FormatAll(ms: seq<MatchRecord>): Result<seq<string>, FormatError>
  {
    if |ms| == 0 then Success([])
    else
      match FormatMatch(ms[0])
      case Failure(e) => Failure(e)
      case Success(line) =>
        match FormatAll(ms[1..])
        case Failure(e) => Failure(e)
        case Success(rest) => Success([line] + rest)
  }

  /** `format_matches`: all records formatted, then the first five lines kept. */
  function FormatTop(ms: seq<MatchRecord>): Result<seq<string>, FormatError>
  {
    match FormatAll(ms)
    case Failure(e) => Failure(e)
    case Success(lines) => Success(lines[..Min(TopCount, |lines|)])
  }

  /** When every record formats, the pass yields exactly their lines, in order. */
  lemma {:induction false} FormatAllOk(ms: seq<MatchRecord>, lines: seq<string>)
    requires |lines| == |ms|
    requires forall i | 0 <= i < |ms| :: FormatMatch(ms[i]) == Success(lines[i])
    ensures FormatAll(ms) == Success(lines)
  {
    if |ms| > 0 {
      FormatAllOk(ms[1..], lines[1..]);
      assert [lines[0]] + lines[1..] == lines;
    }
  }

  /** The pass fails with the error of the first record that fails. */
  lemma {:induction false} FormatAllFirstError(ms: seq<MatchRecord>, k: nat)
    requires k < |ms| && FormatMatch(ms[k]).Failure?
    requires forall j | 0 <= j < k :: FormatMatch(ms[j]).Success?
    ensures FormatAll(ms) == Failure(FormatMatch(ms[k]).error)
  {
    if k > 0 {
      FormatAllFirstError(ms[1..], k - 1);
    }
  }

  /** A successful pass has one line per record, line i built from record i. */
  lemma {:induction false} FormatAllLines(ms: seq<MatchRecord>)
    requires FormatAll(ms).Success?
    ensures |FormatAll(ms).value| == |ms|
    ensures forall i | 0 <= i < |ms| :: FormatMatch(ms[i]) == Success(FormatAll(ms).value[i])
  {
    if |ms| > 0 {
      FormatAllLines(ms[1..]);
    }
  }

  /** The pass succeeds exactly when every record is complete. */
  lemma FormatAllSucceeds(ms: seq<MatchRecord>)
    ensures FormatAll(ms).Success? <==> forall i | 0 <= i < |ms| :: Complete(ms[i])
  {
    if FormatAll(ms).Success? {
      FormatAllLines(ms);
    } else if forall i | 0 <= i < |ms| :: Complete(ms[i]) {
      FormatAllOk(ms, seq(|ms|, i requires 0 <= i < |ms| => FormatMatch(ms[i]).value));
    }
  }

  /** Truncation happens after every record is formatted, so an incomplete
      record anywhere, even past the fifth, makes the whole call fail. */
  lemma IncompleteRecordFailsCall(ms: seq<MatchRecord>, k: nat)
    requires k < |ms| && !Complete(ms[k])
    ensures FormatTop(ms).Failure?
  {
    FormatAllSucceeds(ms);
  }

  /** `format_matches` (the source's loop appending to `top_matches`, then the slice). */
  method FormatMatches(matches: seq<MatchRecord>) returns (r: Result<seq<string>, FormatError>)
    ensures r == FormatTop(matches)
    ensures r.Success? <==> forall i | 0 <= i < |matches| :: Complete(matches[i])
    ensures r.Success? ==> |r.value| == Min(TopCount, |matches|)
    ensures r.Success? ==> forall i | 0 <= i < |r.value| :: FormatMatch(matches[i]) == Success(r.value[i])
  {
    var topMatches: seq<string> := [];
    var i := 0;
    while i < |matches|
      invariant 0 <= i <= |matches|
      invariant |topMatches| == i
      invariant forall j | 0 <= j < i :: FormatMatch(matches[j]) == Success(topMatches[j])
    {
      var line := FormatMatch(matches[i]);
      if line.Failure? {
        FormatAllFirstError(matches, i);
        return Failure(line.error);
      }
      topMatches := topMatches + [line.value];
      i := i + 1;
    }
    FormatAllOk(matches, topMatches);
    r := Success(topMatches[..Min(TopCount, |topMatches|)]);
  }

  /** The message `main` sends for the fetched matches (lines 74-77 of the
      source): the header and the formatted lines, or the sentinel. */
  function ComposeMessage(matches: seq<MatchRecord>): (r: Result<string, FormatError>)
    ensures |matches| == 0 ==> r == Success(NoMatchesMessage)
    ensures |matches| > 0 ==> (r.Success? <==> forall i | 0 <= i < |matches| :: Complete(matches[i]))
    ensures |matches| > 0 && r.Success? ==> |r.value| > |Header| && r.value[..|Header|] == Header
  {
    FormatAllSucceeds(matches);
    if |matches| > 0 then
      match FormatTop(matches)
      case Failure(e) => Failure(e)
      case Success(lines) =>
        FormatAllLines(matches);
        Success(Header + Join(lines, "\n"))
    else
      Success(NoMatchesMessage)
  }

  /** After the header, the message holds exactly min(5, n) lines, line i built
      from record i, with min(5, n) - 1 newlines between them (as long as no
      name of those first records contains a newline). */
  lemma MessageBodyLines(matches: seq<MatchRecord>)
    requires |matches| > 0
    requires forall i | 0 <= i < |matches| :: Complete(matches[i])
    requires forall i | 0 <= i < Min(TopCount, |matches|) :: SingleLineNames(matches[i])
    ensures ComposeMessage(matches).Success?
    ensures var body := ComposeMessage(matches).value[|Header|..];
      && |Split(body, '\n')| == Min(TopCount, |matches|)
      && (forall i | 0 <= i < Min(TopCount, |matches|) ::
            FormatMatch(matches[i]) == Success(Split(body, '\n')[i]))
      && Occurrences(body, '\n') == Min(TopCount, |matches|) - 1
  {
    FormatAllSucceeds(matches);
    FormatAllLines(matches);
    var lines := FormatTop(matches).value;
    assert |lines| == Min(TopCount, |matches|);
    forall i | 0 <= i < |lines| ensures '\n' !in lines[i] {
      LineIsSingleLine(matches[i]);
    }
    var message := Header + Join(lines, "\n");
    assert ComposeMessage(matches).value == message;
    assert message[|Header|..] == Join(lines, "\n");
    SplitJoin(lines, '\n');
    JoinSeparatorCount(lines, '\n');
  }

  /** The response of the fixtures request, reduced to what `get_today_matches`
      looks at: the status code and the `matches` key of the JSON body. */
  datatype Response = Response(status: int, matches: Option<seq<MatchRecord>>)

  /** `get_today_matches` after the request: no matches unless the status is
      200, and an absent `matches` key reads as none. */
  function FetchedMatches(resp: Response): seq<MatchRecord>
  {
    if resp.status != 200 then []
    else match resp.matches
      case None => []
      case Some(ms) => ms
  }

  /** A failed or empty fetch ends in the sentinel message, never an error. */
  lemma FailedFetchSendsSentinel(resp: Response)
    requires resp.status != 200 || resp.matches.None? || resp.matches == Some([])
    ensures ComposeMessage(FetchedMatches(resp)) == Success(NoMatchesMessage)
  {
  }
}
