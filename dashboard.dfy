/** The dashboard's submission logic (components/Dashboard.tsx): the `HH:MM:SS` validator,
    the date shown to the user, the interpretation of the server's answer, the bounded
    history, and the dashboard state that `handleSubmit` and the input handlers update. */
module Dashboard {
  import opened JsText
  import opened Types
  import opened Utils

  // ---------------------------------------------------------------------------
  // Time validation

  /** `^([01]\d|2[0-3]):([0-5]\d):([0-5]\d)$`, read character by character. */
  predicate IsTimeValid(s: string) {
    |s| == 8 &&
    ((('0' <= s[0] <= '1') && IsDigit(s[1])) || (s[0] == '2' && '0' <= s[1] <= '3')) &&
    s[2] == ':' && '0' <= s[3] <= '5' && IsDigit(s[4]) &&
    s[5] == ':' && '0' <= s[6] <= '5' && IsDigit(s[7])
  }

  /** The two-digit field starting at position i. */
  function Field(s: string, i: nat): int
    requires i + 1 < |s|
  {
    DigitValue(s[i]) * 10 + DigitValue(s[i + 1])
  }

  /** The second of the day an eight-character clock string names. */
  function ClockSeconds(s: string): int
    requires |s| == 8
  {
    Field(s, 0) * 3600 + Field(s, 3) * 60 + Field(s, 6)
  }

  /** The pattern accepts exactly the colon-separated two-digit fields with hours at most 23
      and minutes and seconds at most 59. */
  lemma TimeValidFields(s: string)
    ensures IsTimeValid(s) <==>
      |s| == 8 && s[2] == ':' && s[5] == ':' &&
      IsDigit(s[0]) && IsDigit(s[1]) && IsDigit(s[3]) && IsDigit(s[4]) && IsDigit(s[6]) && IsDigit(s[7]) &&
      Field(s, 0) <= 23 && Field(s, 3) <= 59 && Field(s, 6) <= 59
  {
  }

  lemma DivMod10(t: int, q: int, r: int)
    requires 0 <= r < 10 && t == q * 10 + r
    ensures t / 10 == q && t % 10 == r
  {
  }

  lemma DivMod60(t: int, q: int, r: int)
    requires 0 <= r < 60 && t == q * 60 + r
    ensures t / 60 == q && t % 60 == r
  {
  }

  lemma DivMod3600(t: int, q: int, r: int)
    requires 0 <= r < 3600 && t == q * 3600 + r
    ensures t / 3600 == q && t % 3600 == r
  {
  }

  lemma DigitCharOfValue(c: char)
    requires IsDigit(c)
    ensures DigitChar(DigitValue(c)) == c
  {
  }

  /** A valid field is the two digits of its value. */
  lemma FieldDigits(s: string, i: nat)
    requires i + 1 < |s| && IsDigit(s[i]) && IsDigit(s[i + 1])
    ensures 0 <= Field(s, i) < 100
    ensures TwoDigits(Field(s, i)) == s[i..i + 2]
  {
    DivMod10(Field(s, i), DigitValue(s[i]), DigitValue(s[i + 1]));
    DigitCharOfValue(s[i]);
    DigitCharOfValue(s[i + 1]);
  }

  lemma ClockDecompose(t: nat)
    ensures t == (t / 3600) * 3600 + (t % 3600 / 60) * 60 + t % 60
  {
    var q, r := t / 3600, t % 3600;
    assert t == q * 3600 + r;
    assert r == (r / 60) * 60 + r % 60;
    DivMod60(t, q * 60 + r / 60, r % 60);
  }

  /** Every second of the day formats to a time the validator accepts, and reading
      the fields back gives that second. */
  lemma FormattedClockIsValid(t: nat)
    requires t < 86400
    ensures IsTimeValid(FormatClock(t))
    ensures ClockSeconds(FormatClock(t)) == t
  {
    ClockShape(t);
    ClockDecompose(t);
    var h, m, x := t / 3600, t % 3600 / 60, t % 60;
    var s := FormatClock(t);
    assert s[0] == DigitChar(h / 10) && s[1] == DigitChar(h % 10);
    assert s[3] == DigitChar(m / 10) && s[4] == DigitChar(m % 10);
    assert s[6] == DigitChar(x / 10) && s[7] == DigitChar(x % 10);
    assert Field(s, 0) == h && Field(s, 3) == m && Field(s, 6) == x;
  }

  /** Clock text of a second given by its fields. */
  lemma ClockOfFields(t: nat, h: int, m: int, x: int)
    requires 0 <= h < 24 && 0 <= m < 60 && 0 <= x < 60
    requires t == h * 3600 + m * 60 + x
    ensures FormatClock(t) == TwoDigits(h) + [':'] + TwoDigits(m) + [':'] + TwoDigits(x)
  {
    DivMod3600(t, h, m * 60 + x);
    DivMod60(m * 60 + x, m, x);
    DivMod60(t, h * 60 + m, x);
    ClockShape(t);
  }

  lemma EightChars(s: string, a: string, b: string, c: string)
    requires |s| == 8 && s[2] == ':' && s[5] == ':'
    requires a == s[0..2] && b == s[3..5] && c == s[6..8]
    ensures a + [':'] + b + [':'] + c == s
  {
  }

  lemma ClockFromFields(s: string, t: nat, h: int, m: int, x: int)
    requires |s| == 8 && s[2] == ':' && s[5] == ':'
    requires 0 <= h < 24 && 0 <= m < 60 && 0 <= x < 60 && t == h * 3600 + m * 60 + x
    requires TwoDigits(h) == s[0..2] && TwoDigits(m) == s[3..5] && TwoDigits(x) == s[6..8]
    ensures FormatClock(t) == s
  {
    ClockOfFields(t, h, m, x);
    EightChars(s, TwoDigits(h), TwoDigits(m), TwoDigits(x));
  }

  /** Every string the validator accepts is the formatting of the second it names. */
  lemma ValidTimeIsFormatted(s: string)
    requires IsTimeValid(s)
    ensures 0 <= ClockSeconds(s) < 86400
    ensures FormatClock(ClockSeconds(s)) == s
  {
    TimeValidFields(s);
    var h, m, x := Field(s, 0), Field(s, 3), Field(s, 6);
    FieldDigits(s, 0);
    FieldDigits(s, 3);
    FieldDigits(s, 6);
    var t := ClockSeconds(s);
    ClockFromFields(s, t, h, m, x);
  }

  /** The validator accepts exactly the clock texts of the seconds of one day. */
  lemma TimeValidIffClock(s: string)
    ensures IsTimeValid(s) <==> exists t: nat :: t < 86400 && FormatClock(t) == s
  {
    if IsTimeValid(s) {
      ValidTimeIsFormatted(s);
      var t: nat := ClockSeconds(s);
      assert FormatClock(t) == s;
    }
    if exists t: nat :: t < 86400 && FormatClock(t) == s {
      var t: nat :| t < 86400 && FormatClock(t) == s;
      FormattedClockIsValid(t);
    }
  }

  lemma ValidatorExamples()
    ensures IsTimeValid("08:13:00")
    ensures !IsTimeValid("24:00:00") && !IsTimeValid("8:13:00") && !IsTimeValid("08:13:60")
  {
  }

  /** A generated candidate time passes the validator, lies in its kind's window,
      and names the drawn second. */
  lemma GeneratedTimeIsValid(k: CheckType, offset: nat)
    requires offset < WindowFor(k).Width()
    ensures IsTimeValid(GenerateRandomTime(k, offset))
    ensures ClockSeconds(GenerateRandomTime(k, offset)) == WindowFor(k).start + offset
    ensures WindowFor(k).start <= ClockSeconds(GenerateRandomTime(k, offset)) <= WindowFor(k).end
  {
    FormattedClockIsValid(DrawnSecond(k, offset));
  }

  // ---------------------------------------------------------------------------
  // The date shown on the dashboard

  const DatePlaceholder := "Chọn ngày"

  /** `displayDate`: the placeholder for no date, the date unchanged unless it has
      exactly three dash-separated pieces, otherwise the pieces as day-month-year. */
  function DisplayDate(selectedDate: string): string {
    if selectedDate == "" then DatePlaceholder
    else
      var parts := Split(selectedDate, '-');
      if |parts| != 3 then selectedDate
      else parts[2] + "-" + parts[1] + "-" + parts[0]
  }

  lemma DisplayDateCases(date: string)
    ensures date == "" ==> DisplayDate(date) == DatePlaceholder
    ensures date != "" && |Split(date, '-')| != 3 ==> DisplayDate(date) == date
    ensures forall y, m, d :: '-' !in y && '-' !in m && '-' !in d && date == y + "-" + m + "-" + d ==>
      DisplayDate(date) == d + "-" + m + "-" + y
  {
    forall y, m, d | '-' !in y && '-' !in m && '-' !in d && date == y + "-" + m + "-" + d
      ensures DisplayDate(date) == d + "-" + m + "-" + y
    {
      SplitThree(y, m, d, '-');
    }
  }

  /** A non-empty date shown twice comes back as itself: the reorder is its own inverse. */
  lemma DisplayDateInvolution(date: string)
    requires date != ""
    ensures DisplayDate(DisplayDate(date)) == date
  {
    var parts := Split(date, '-');
    if |parts| == 3 {
      JoinSplit(date, '-');
      SplitPieces(date, '-');
      assert parts == [parts[0], parts[1], parts[2]];
      Join3(parts[0], parts[1], parts[2], '-');
      assert date == parts[0] + "-" + parts[1] + "-" + parts[2];
      SplitThree(parts[2], parts[1], parts[0], '-');
      var shown := parts[2] + "-" + parts[1] + "-" + parts[0];
      assert DisplayDate(date) == shown && shown != "";
      assert Split(shown, '-') == [parts[2], parts[1], parts[0]];
    }
  }

  /** For a three-piece date the payload's date part is what the dashboard displays. */
  lemma PayloadDateIsDisplayedDate(date: string, time: string)
    requires |Split(date, '-')| == 3
    ensures FormatPayloadDate(date, time) == DisplayDate(date) + " " + time
  {
  }

  // ---------------------------------------------------------------------------
  // The request and the server's answer

  const MissingCredentialsMessage := "Cấu hình 'sức mạnh' (Auth/Token) trước khi cày!"
  const ResultFallbackMessage := "Thất bại khi chấm công."
  const NetworkFallbackMessage := "Sự cố mạng khi cày bừa."
  const HttpRejectionSuffix := ": Máy chủ từ chối cày."

  /** The query parameters and the headers of the one POST a submission issues. */
  datatype Request = Request(
    userId: string,
    typeCheckInOut: string,
    dateCheckInOut: string,
    authorization: string,
    username: string,
    token: string)

  function BuildRequest(userID: string, username: string, k: CheckType, selectedDate: string,
                        time: string, basicAuth: string, accessToken: string): Request
  {
    Request(userID, IntToString(k.Code()), FormatPayloadDate(selectedDate, time),
            "Basic " + basicAuth, username, accessToken)
  }

  /** The kind travels as "1" or "2"; the date-time is the payload date followed by the time. */
  lemma RequestEncodesSubmission(userID: string, username: string, k: CheckType, date: string,
                                 time: string, basicAuth: string, accessToken: string)
    ensures var r := BuildRequest(userID, username, k, date, time, basicAuth, accessToken);
      r.typeCheckInOut == (if k == In then "1" else "2") &&
      NumberOf(r.typeCheckInOut) == Num(k.Code()) &&
      r.dateCheckInOut[|r.dateCheckInOut| - |time|..] == time &&
      (|Split(date, '-')| == 3 ==> r.dateCheckInOut == DisplayDate(date) + " " + time)
  {
    var r := BuildRequest(userID, username, k, date, time, basicAuth, accessToken);
    IntToStringValue(k.Code());
    assert r.dateCheckInOut[|r.dateCheckInOut| - |time|..] == time;
  }

  /** What an Error object or another value thrown along the way carries. */
  datatype Thrown = ErrorObject(message: string) | OtherValue

  /** The body as `response.json()` yields it: the `resultCode` when it is a number and
      the `message` when it is a string, or the Error that reading the body raised. */
  datatype Body = Json(resultCode: Option<int>, message: Option<string>) | BodyError(error: string)

  /** The abstract answer of `fetch`: a rejection, or a response with its status and body. */
  datatype Response = FetchFailed(thrown: Thrown) | Received(status: nat, body: Body)

  predicate IsOk(status: nat) {
    200 <= status <= 299
  }

  datatype Outcome = Accepted | Rejected(message: string)

  function HttpRejection(status: nat): string {
    "HTTP " + IntToString(status) + HttpRejectionSuffix
  }

  /** How `handleSubmit` turns the answer into success or an error message. */
  function Interpret(r: Response): Outcome {
    match r
    case FetchFailed(thrown) => Rejected(ThrownMessage(thrown))
    case Received(status, body) =>
      if !IsOk(status) then Rejected(HttpRejection(status))
      else
        match body
        case BodyError(e) => Rejected(e)
        case Json(code, message) =>
          if code == Some(1) then Accepted
          else if message.Some? && message.value != "" then Rejected(message.value)
          else Rejected(ResultFallbackMessage)
  }

  /** The catch block: an Error's own message, otherwise the network fallback. */
  function ThrownMessage(t: Thrown): string {
    match t
    case ErrorObject(m) => m
    case OtherValue => NetworkFallbackMessage
  }

  /** Success exactly for a 2xx answer whose body has `resultCode` 1; a non-2xx status is
      reported with the status message; a 2xx answer with another code reports the body's
      non-empty `message`, else the fixed fallback; a 2xx answer whose body cannot be read
      reports that Error's message; a thrown Error reports its own message and any other
      thrown value the network fallback. */
  lemma InterpretCases(r: Response)
    ensures Interpret(r).Accepted? <==>
      r.Received? && IsOk(r.status) && r.body.Json? && r.body.resultCode == Some(1)
    ensures r.Received? && !IsOk(r.status) ==> Interpret(r) == Rejected(HttpRejection(r.status))
    ensures r.Received? && IsOk(r.status) && r.body.Json? && r.body.resultCode != Some(1) ==>
      Interpret(r) == Rejected(
        if r.body.message.Some? && r.body.message.value != "" then r.body.message.value
        else ResultFallbackMessage)
    ensures r.Received? && IsOk(r.status) && r.body.BodyError? ==> Interpret(r) == Rejected(r.body.error)
    ensures r.FetchFailed? ==>
      Interpret(r) == Rejected(if r.thrown.ErrorObject? then r.thrown.message else NetworkFallbackMessage)
  {
  }

  /** The HTTP rejection names the status: the digits between `HTTP ` and the first colon
      read back as the status code. */
  lemma HttpRejectionNamesStatus(status: nat)
    ensures var m := HttpRejection(status);
      m[..5] == "HTTP " && NumberOf(Split(m[5..], ':')[0]) == Num(status)
  {
    assert HttpRejectionSuffix[0] == ':';
    NumberBeforeColon("HTTP ", status, HttpRejectionSuffix);
  }

  lemma NumberBeforeColon(head: string, n: nat, tail: string)
    requires |tail| >= 1 && tail[0] == ':'
    ensures var m := head + IntToString(n) + tail;
      m[..|head|] == head && NumberOf(Split(m[|head|..], ':')[0]) == Num(n)
  {
    var digits := IntToString(n);
    IntToStringValue(n);
    assert ':' !in digits by {
      assert forall i :: 0 <= i < |digits| ==> IsDigit(digits[i]);
    }
    var rest := tail[1..];
    assert head + digits + tail == head + digits + [':'] + rest;
    PrefixedPieces(head, digits, rest, ':');
  }

  lemma PrefixedPieces(head: string, a: string, b: string, sep: char)
    requires sep !in a
    ensures var m := head + a + [sep] + b;
      m[..|head|] == head && Split(m[|head|..], sep)[0] == a
  {
    var m := head + a + [sep] + b;
    assert m[|head|..] == a + [sep] + b;
    SplitAfter(a, b, sep);
  }

  /** The source's own rejection texts are never empty; only an Error's own message
      can be. */
  lemma RejectionMessageNonEmpty(r: Response)
    requires !(r.FetchFailed? && r.thrown.ErrorObject?) && !(r.Received? && r.body.BodyError?)
    ensures Interpret(r).Rejected? ==> |Interpret(r).message| > 0
  {
  }

  // ---------------------------------------------------------------------------
  // The bounded history

  const MaxLogs := 10

  function Min(a: int, b: int): int {
    if a < b then a else b
  }

  /** `[newLog, ...prev].slice(0, 10)`: the new entry first, then the older entries in
      order, as many as fit. */
  function Record(logs: seq<LogEntry>, e: LogEntry): (r: seq<LogEntry>)
    ensures |r| == Min(|logs| + 1, MaxLogs)
    ensures r[0] == e
    ensures r[1..] == logs[..|r| - 1]
  {
    ([e] + logs)[..Min(|logs| + 1, MaxLogs)]
  }

  /** The history after recording each of `es` in turn. */
  function RecordAll(logs: seq<LogEntry>, es: seq<LogEntry>): seq<LogEntry> {
    if es == [] then logs else Record(RecordAll(logs, es[..|es| - 1]), es[|es| - 1])
  }

  function Reversed(es: seq<LogEntry>): (r: seq<LogEntry>)
    ensures |r| == |es|
  {
    if es == [] then [] else [es[|es| - 1]] + Reversed(es[..|es| - 1])
  }

  /** After any run of successful submissions the history holds the newest entries first,
      followed by what was there before, cut to the cap. */
  lemma {:induction false} RecordAllNewestFirst(logs: seq<LogEntry>, es: seq<LogEntry>)
    requires |logs| <= MaxLogs
    ensures RecordAll(logs, es) == (Reversed(es) + logs)[..Min(|es| + |logs|, MaxLogs)]
  {
    if es != [] {
      var init, e := es[..|es| - 1], es[|es| - 1];
      RecordAllNewestFirst(logs, init);
      var k := Min(|init| + |logs|, MaxLogs);
      var before := (Reversed(init) + logs)[..k];
      assert RecordAll(logs, es) == Record(before, e);
      assert Reversed(es) + logs == [e] + (Reversed(init) + logs);
      var n := Min(|es| + |logs|, MaxLogs);
      assert Min(|before| + 1, MaxLogs) == n;
      assert ([e] + before)[..n] == ([e] + (Reversed(init) + logs))[..n];
    }
  }

  /** Once more entries than the cap have been recorded, only the newest ten remain. */
  lemma OldEntriesEvicted(logs: seq<LogEntry>, es: seq<LogEntry>)
    requires |logs| <= MaxLogs && |es| >= MaxLogs
    ensures RecordAll(logs, es) == Reversed(es)[..MaxLogs]
  {
    RecordAllNewestFirst(logs, es);
  }

  // ---------------------------------------------------------------------------
  // The dashboard state

  /** The two candidate times, one per kind. */
  datatype Samples = Samples(checkIn: string, checkOut: string) {
    function For(k: CheckType): string {
      if k == In then checkIn else checkOut
    }
  }

  /** The two random draws one recomputation of the samples consumes. */
  datatype Draw = Draw(checkIn: nat, checkOut: nat)

  predicate ValidDraw(d: Draw) {
    d.checkIn < WindowFor(In).Width() && d.checkOut < WindowFor(Out).Width()
  }

  function Sample(d: Draw): Samples
    requires ValidDraw(d)
  {
    Samples(GenerateRandomTime(In, d.checkIn), GenerateRandomTime(Out, d.checkOut))
  }

  /** A candidate time of kind k: valid and inside k's window. */
  predicate IsSampleFor(k: CheckType, s: string) {
    IsTimeValid(s) && WindowFor(k).start <= ClockSeconds(s) <= WindowFor(k).end
  }

  /** The samples recomputed from the draws: for each kind, the valid time naming the
      drawn second. */
  predicate SamplesFrom(s: Samples, d: Draw) {
    ValidDraw(d) &&
    IsTimeValid(s.checkIn) && ClockSeconds(s.checkIn) == DrawnSecond(In, d.checkIn) &&
    IsTimeValid(s.checkOut) && ClockSeconds(s.checkOut) == DrawnSecond(Out, d.checkOut)
  }

  /** `SamplesFrom` pins the samples down: they are exactly the generated times, and each
      lies in its kind's window. */
  lemma SamplesFromIsSample(s: Samples, d: Draw)
    requires ValidDraw(d)
    ensures SamplesFrom(s, d) <==> s == Sample(d)
    ensures SamplesFrom(s, d) ==> IsSampleFor(In, s.checkIn) && IsSampleFor(Out, s.checkOut)
  {
    GeneratedTimeIsValid(In, d.checkIn);
    GeneratedTimeIsValid(Out, d.checkOut);
    if SamplesFrom(s, d) {
      ValidTimeIsFormatted(s.checkIn);
      ValidTimeIsFormatted(s.checkOut);
    }
  }

  /** The last successful submission shown to the user. */
  datatype Submission = Submission(time: string, checkType: CheckType)

  /** `localStorage.getItem(key) || ''`. */
  function StoredOrEmpty(v: Option<string>): string {
    if v.Some? then v.value else ""
  }

  class Dashboard {
    const userID: string
    const username: string
    var selectedDate: string
    var checkType: CheckType
    var isSubmitting: bool
    var logs: seq<LogEntry>
    var lastSubmission: Option<Submission>
    var errorMessage: Option<string>
    var isSettingsOpen: bool
    var basicAuth: string
    var accessToken: string
    var samples: Samples
    var customTime: string
    var isTimeEditable: bool

    /** Between handler runs nothing is in flight, the history is within its cap and both
        samples are valid times inside their windows. */
    ghost predicate Valid()
      reads this
    {
      |logs| <= MaxLogs && !isSubmitting &&
      IsSampleFor(In, samples.checkIn) && IsSampleFor(Out, samples.checkOut)
    }

    /** The state after the first render's effects: today's date, check-in, fresh samples,
        the check-in sample as the time, and the stored credentials. */
    constructor (userID: string, username: string, year: int, monthIndex: int, day: int,
                 draw: Draw, savedBasicAuth: Option<string>, savedAccessToken: Option<string>)
      requires ValidDraw(draw)
      ensures Valid()
      ensures this.userID == userID && this.username == username
      ensures selectedDate == GetTodayString(year, monthIndex, day) && checkType == In
      ensures logs == [] && lastSubmission == None && errorMessage == None && !isSettingsOpen
      ensures SamplesFrom(samples, draw) && customTime == samples.checkIn && !isTimeEditable
      ensures basicAuth == StoredOrEmpty(savedBasicAuth) && accessToken == StoredOrEmpty(savedAccessToken)
    {
      this.userID := userID;
      this.username := username;
      selectedDate := GetTodayString(year, monthIndex, day);
      checkType := In;
      isSubmitting := false;
      logs := [];
      lastSubmission := None;
      errorMessage := None;
      isSettingsOpen := false;
      basicAuth := StoredOrEmpty(savedBasicAuth);
      accessToken := StoredOrEmpty(savedAccessToken);
      var drawn := Sample(draw);
      SamplesFromIsSample(drawn, draw);
      samples := drawn;
      customTime := drawn.checkIn;
      isTimeEditable := false;
    }

    /** The recomputation of the samples and the effect that follows it: the time is reset
        to the sample of the current kind and editing is switched off. */
    method Resample(draw: Draw)
      requires ValidDraw(draw)
      modifies this`samples, this`customTime, this`isTimeEditable
      ensures ShowsFreshSamples(draw)
      ensures IsSampleFor(In, samples.checkIn) && IsSampleFor(Out, samples.checkOut)
    {
      samples := Sample(draw);
      customTime := samples.For(checkType);
      isTimeEditable := false;
      SamplesFromIsSample(samples, draw);
    }

    /** The samples were just recomputed from `draw`: the time shows the current kind's
        sample and editing is off. */
    ghost predicate ShowsFreshSamples(draw: Draw)
      reads this
    {
      SamplesFrom(samples, draw) && customTime == samples.For(checkType) && !isTimeEditable
    }

    /** `handleSubmit` run to completion against the answer `response`; `logId` and `now`
        stand for the random id and `Date.now()`, `draw` for the samples recomputed when
        `lastSubmission` is replaced. Returns the request issued, if any. */
    method HandleSubmit(response: Response, logId: string, now: int, draw: Draw)
      returns (request: Option<Request>)
      requires Valid() && ValidDraw(draw)
      modifies this
      ensures Valid()
      ensures unchanged(this`selectedDate, this`checkType, this`basicAuth, this`accessToken)
      // An invalid time stops everything.
      ensures !IsTimeValid(old(customTime)) ==> request == None && unchanged(this)
      // Missing credentials: an error and the settings panel, nothing else.
      ensures IsTimeValid(old(customTime)) && (old(basicAuth) == "" || old(accessToken) == "") ==>
        request == None &&
        errorMessage == Some(MissingCredentialsMessage) && isSettingsOpen &&
        unchanged(this`logs, this`lastSubmission, this`samples, this`customTime, this`isTimeEditable)
      // Otherwise one request, and the answer decides the rest.
      ensures IsTimeValid(old(customTime)) && old(basicAuth) != "" && old(accessToken) != "" ==>
        request == Some(BuildRequest(userID, username, old(checkType), old(selectedDate),
                                     old(customTime), old(basicAuth), old(accessToken))) &&
        isSettingsOpen == old(isSettingsOpen) &&
        match Interpret(response)
        case Accepted =>
          logs == Record(old(logs), LogEntry(AttendancePayload(userID, old(checkType),
                                             FormatPayloadDate(old(selectedDate), old(customTime))), logId, now)) &&
          lastSubmission == Some(Submission(old(customTime), old(checkType))) &&
          errorMessage == None && ShowsFreshSamples(draw)
        case Rejected(m) =>
          logs == old(logs) && lastSubmission == None && errorMessage == Some(m) &&
          if old(lastSubmission).Some? then ShowsFreshSamples(draw)
          else unchanged(this`samples, this`customTime, this`isTimeEditable)
    {
      if !IsTimeValid(customTime) {
        return None;
      }
      if basicAuth == "" || accessToken == "" {
        errorMessage := Some(MissingCredentialsMessage);
        isSettingsOpen := true;
        return None;
      }
      var sent := SubmitToServer(response, logId, now, draw);
      request := Some(sent);
    }

    /** The part of `handleSubmit` past its two guards: mark the submission in flight, clear
        the last error and submission, issue the request, act on the answer, and clear the
        in-flight flag whatever the answer was. */
    method SubmitToServer(response: Response, logId: string, now: int, draw: Draw)
      returns (request: Request)
      requires Valid() && ValidDraw(draw)
      modifies this`isSubmitting, this`errorMessage, this`lastSubmission, this`logs,
               this`samples, this`customTime, this`isTimeEditable
      ensures Valid()
      ensures request == BuildRequest(userID, username, checkType, selectedDate,
                                      old(customTime), basicAuth, accessToken)
      ensures match Interpret(response)
        case Accepted =>
          logs == Record(old(logs), LogEntry(AttendancePayload(userID, checkType,
                                             FormatPayloadDate(selectedDate, old(customTime))), logId, now)) &&
          lastSubmission == Some(Submission(old(customTime), checkType)) &&
          errorMessage == None && ShowsFreshSamples(draw)
        case Rejected(m) =>
          logs == old(logs) && lastSubmission == None && errorMessage == Some(m) &&
          if old(lastSubmission).Some? then ShowsFreshSamples(draw)
          else unchanged(this`samples, this`customTime, this`isTimeEditable)
    {
      var hadSubmission := lastSubmission.Some?;
      isSubmitting := true;
      errorMessage := None;
      lastSubmission := None;
      var time := customTime;
      var formattedDate := FormatPayloadDate(selectedDate, time);
      request := BuildRequest(userID, username, checkType, selectedDate, time, basicAuth, accessToken);
      match Interpret(response) {
        case Accepted =>
          var newLog := LogEntry(AttendancePayload(userID, checkType, formattedDate), logId, now);
          logs := Record(logs, newLog);
          lastSubmission := Some(Submission(time, checkType));
        case Rejected(m) =>
          errorMessage := Some(m);
      }
      isSubmitting := false;
      if lastSubmission.Some? || hadSubmission {
        Resample(draw);
      }
    }

    /** Picking a date (from the calendar): a different date recomputes the samples. */
    method SelectDate(date: string, draw: Draw)
      requires Valid() && ValidDraw(draw)
      modifies this
      ensures Valid()
      ensures selectedDate == date
      ensures date != old(selectedDate) ==> ShowsFreshSamples(draw)
      ensures date == old(selectedDate) ==> unchanged(this`samples, this`customTime, this`isTimeEditable)
      ensures checkType == old(checkType) && logs == old(logs) && lastSubmission == old(lastSubmission)
      ensures errorMessage == old(errorMessage) && isSettingsOpen == old(isSettingsOpen)
      ensures basicAuth == old(basicAuth) && accessToken == old(accessToken)
    {
      if date != selectedDate {
        selectedDate := date;
        Resample(draw);
      }
    }

    /** Switching between check-in and check-out reuses the samples: the time becomes the
        other kind's sample and editing is switched off. */
    method ChooseType(k: CheckType)
      requires Valid()
      modifies this
      ensures Valid()
      ensures checkType == k && samples == old(samples)
      ensures k != old(checkType) ==> customTime == samples.For(k) && !isTimeEditable
      ensures k == old(checkType) ==> customTime == old(customTime) && isTimeEditable == old(isTimeEditable)
      ensures selectedDate == old(selectedDate) && logs == old(logs) && lastSubmission == old(lastSubmission)
      ensures errorMessage == old(errorMessage) && isSettingsOpen == old(isSettingsOpen)
      ensures basicAuth == old(basicAuth) && accessToken == old(accessToken)
    {
      if k != checkType {
        checkType := k;
        customTime := samples.For(k);
        isTimeEditable := false;
      }
    }

    /** The edit/confirm button next to the time. */
    method ToggleTimeEditing()
      requires Valid()
      modifies this`isTimeEditable
      ensures Valid() && isTimeEditable == !old(isTimeEditable)
    {
      isTimeEditable := !isTimeEditable;
    }

    /** Typing in the time field; a disabled field takes no input. */
    method EditTime(s: string)
      requires Valid()
      modifies this`customTime
      ensures Valid()
      ensures customTime == if isTimeEditable then s else old(customTime)
    {
      if isTimeEditable {
        customTime := s;
      }
    }

    /** Typing in the settings form changes the credentials in memory only. */
    method EditCredentials(newBasicAuth: string, newAccessToken: string)
      requires Valid()
      modifies this`basicAuth, this`accessToken
      ensures Valid() && basicAuth == newBasicAuth && accessToken == newAccessToken
    {
      basicAuth := newBasicAuth;
      accessToken := newAccessToken;
    }

    /** `saveSettings`: returns the two values written to storage and closes the panel. */
    method SaveSettings() returns (storedBasicAuth: string, storedAccessToken: string)
      requires Valid()
      modifies this`isSettingsOpen
      ensures Valid() && !isSettingsOpen
      ensures storedBasicAuth == basicAuth && storedAccessToken == accessToken
    {
      storedBasicAuth, storedAccessToken := basicAuth, accessToken;
      isSettingsOpen := false;
    }
  }
}
