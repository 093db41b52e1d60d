/** One-time passwords over a cache with expiry: rate limits, issue, verification, in timed runs. */
module Otp {
  import opened Wrappers

  type Phone = string
  /** The empty string stands for a missing address. */
  type Ip = string
  type Code = string
  /** Seconds. */
  type Time = real

  const OTP_TTL: real := 300.0
  const OTP_MAX_ATTEMPTS: nat := 3
  const PHONE_RATE_TTL: real := 60.0
  const IP_RATE_TTL: real := 3600.0
  const IP_RATE_MAX: nat := 10

  /** A cache entry is visible strictly before its expiry. */
  datatype OtpEntry = OtpEntry(code: Code, attempts: nat, expires: Time)
  datatype Counter = Counter(count: nat, expires: Time)

  datatype State = State(
    otps: map<Phone, OtpEntry>,
    phoneLocks: map<Phone, Time>,
    ipCounters: map<Ip, Counter>)

  const INIT := State(map[], map[], map[])

  /** A request reads the clock when it starts (`now`) and again when it counts and writes (`later`);
      `sent` says whether the SMS gateway accepts the message. */
  datatype Action =
    | Request(phone: Phone, ip: Ip, code: Code, sent: bool, now: Time, later: Time)
    | Verify(phone: Phone, submitted: Code, now: Time)

  datatype Outcome =
    | PhoneLimited
    | IpLimited
    | SendFailed
    | Sent
    | NoCode
    | TooManyAttempts
    | Incorrect
    | Verified

  // ---- One call ----

  function AddCounter(s: State, ip: Ip, now: Time): State {
    if ip in s.ipCounters && now < s.ipCounters[ip].expires then s
    else s.(ipCounters := s.ipCounters[ip := Counter(0, now + IP_RATE_TTL)])
  }

  /** Counting keeps the window's expiry; a window that ran out in between starts afresh at 1. */
  function CountRequest(s: State, ip: Ip, later: Time): State {
    if ip in s.ipCounters && later < s.ipCounters[ip].expires then
      s.(ipCounters := s.ipCounters[ip := s.ipCounters[ip].(count := s.ipCounters[ip].count + 1)])
    else
      s.(ipCounters := s.ipCounters[ip := Counter(1, later + IP_RATE_TTL)])
  }

  function Issue(s: State, phone: Phone, code: Code, later: Time): State {
    s.(otps := s.otps[phone := OtpEntry(code, 0, later + OTP_TTL)],
       phoneLocks := s.phoneLocks[phone := later + PHONE_RATE_TTL])
  }

  function Step(s: State, a: Action): (State, Outcome) {
    match a
    case Request(phone, ip, code, sent, now, later) =>
      if phone in s.phoneLocks && now < s.phoneLocks[phone] then (s, PhoneLimited)
      else
        var counted := if ip == "" then s else CountRequest(AddCounter(s, ip, now), ip, later);
        if ip != "" && counted.ipCounters[ip].count > IP_RATE_MAX then (counted, IpLimited)
        else (Issue(counted, phone, code, later), if sent then Sent else SendFailed)
    case Verify(phone, submitted, now) =>
      if phone !in s.otps || now >= s.otps[phone].expires then (s, NoCode)
      else
        var entry := s.otps[phone];
        var attempts := entry.attempts + 1;
        if attempts > OTP_MAX_ATTEMPTS then (s.(otps := s.otps - {phone}), TooManyAttempts)
        else if entry.code != submitted then
          (s.(otps := s.otps[phone := OtpEntry(entry.code, attempts, now + OTP_TTL)]), Incorrect)
        else (s.(otps := s.otps - {phone}), Verified)
  }

  // ---- Runs ----

  datatype Event = Event(action: Action, outcome: Outcome)

  function Start(a: Action): Time { a.now }

  function End(a: Action): Time { if a.Request? then a.later else a.now }

  /** A timed run: calls follow one another and each yields the machine's outcome. */
  ghost predicate IsRun(events: seq<Event>, states: seq<State>) {
    && |states| == |events| + 1
    && states[0] == INIT
    && (forall i :: 0 <= i < |events| ==> Start(events[i].action) <= End(events[i].action))
    && (forall i :: 0 <= i < |events| - 1 ==> End(events[i].action) <= Start(events[i + 1].action))
    && (forall i :: 0 <= i < |events| ==> (states[i + 1], events[i].outcome) == Step(states[i], events[i].action))
  }

  lemma {:induction false} PrefixIsRun(events: seq<Event>, states: seq<State>, k: nat)
    requires IsRun(events, states) && k <= |events|
    ensures IsRun(events[..k], states[..k + 1])
  {
  }

  /** The request passed the limits, so a code was issued, whether or not the message went out. */
  predicate Issues(e: Event, phone: Phone) {
    e.action.Request? && e.action.phone == phone && (e.outcome == Sent || e.outcome == SendFailed)
  }

  predicate Compares(e: Event, phone: Phone) {
    e.action.Verify? && e.action.phone == phone && (e.outcome == Incorrect || e.outcome == Verified)
  }

  /** What happened to the latest code issued to a phone: when it was issued and last answered as wrong,
      how many submissions it has been compared with, whether one of them matched, and whether a further
      one was turned away. */
  datatype Latest = Never | Issued(code: Code, at: Time, last: Time, tries: nat, won: bool, blocked: bool)

  function Fresh(code: Code, at: Time): Latest {
    Issued(code, at, at, 0, false, false)
  }

  function Tried(latest: Latest, outcome: Outcome, now: Time): Latest
    requires latest.Issued?
  {
    match outcome
    case Incorrect => latest.(tries := latest.tries + 1, last := now)
    case Verified => latest.(tries := latest.tries + 1, won := true)
    case TooManyAttempts => latest.(blocked := true)
    case _ => latest
  }

  function TrackOne(latest: Latest, e: Event, phone: Phone): Latest {
    if Issues(e, phone) then Fresh(e.action.code, e.action.later)
    else if e.action.Verify? && e.action.phone == phone && latest.Issued? then Tried(latest, e.outcome, e.action.now)
    else latest
  }

  ghost function Track(events: seq<Event>, phone: Phone): Latest {
    if events == [] then Never
    else TrackOne(Track(events[..|events| - 1], phone), events[|events| - 1], phone)
  }

  /** The cache entry of a phone is that of its latest code, until that is matched or given up: with the
      number of tries so far, and living one lifetime from the last of them. */
  ghost predicate Tracks(s: State, latest: Latest, phone: Phone) {
    && (phone in s.otps <==> latest.Issued? && !latest.won && !latest.blocked)
    && (phone in s.otps ==> s.otps[phone] == OtpEntry(latest.code, latest.tries, latest.last + OTP_TTL))
    && (phone in s.phoneLocks <==> latest.Issued?)
    && (latest.Issued? ==>
          && latest.tries <= OTP_MAX_ATTEMPTS && (latest.blocked ==> latest.tries == OTP_MAX_ATTEMPTS)
          && latest.last <= latest.at + OTP_TTL * latest.tries as real
          && s.phoneLocks[phone] == latest.at + PHONE_RATE_TTL)
  }

  lemma TrackRequest(s: State, latest: Latest, e: Event, phone: Phone)
    requires Tracks(s, latest, phone) && e.action.Request? && e.outcome == Step(s, e.action).1
    ensures Tracks(Step(s, e.action).0, TrackOne(latest, e, phone), phone)
  {
  }

  lemma TrackVerify(s: State, latest: Latest, e: Event, phone: Phone)
    requires Tracks(s, latest, phone) && e.action.Verify? && e.outcome == Step(s, e.action).1
    ensures Tracks(Step(s, e.action).0, TrackOne(latest, e, phone), phone)
  {
  }

  lemma TrackStep(s: State, before: seq<Event>, e: Event, phone: Phone)
    requires Tracks(s, Track(before, phone), phone) && e.outcome == Step(s, e.action).1
    ensures Tracks(Step(s, e.action).0, Track(before + [e], phone), phone)
  {
    assert (before + [e])[..|before|] == before;
    if e.action.Request? {
      TrackRequest(s, Track(before, phone), e, phone);
    } else {
      TrackVerify(s, Track(before, phone), e, phone);
    }
  }

  lemma {:induction false} RunTracks(events: seq<Event>, states: seq<State>, phone: Phone)
    requires IsRun(events, states)
    ensures Tracks(states[|events|], Track(events, phone), phone)
  {
    if events != [] {
      var k := |events| - 1;
      PrefixIsRun(events, states, k);
      RunTracks(events[..k], states[..k + 1], phone);
      assert events == events[..k] + [events[k]];
      assert (states[k + 1], events[k].outcome) == Step(states[k], events[k].action);
      TrackStep(states[k], events[..k], events[k], phone);
    }
  }

  // ---- What a submission is answered ----

  /** The answer is fixed by what has happened to the phone's latest code: none, used up, or older than 300
      seconds since its issue or its last wrong submission; tried three times; right or wrong. */
  lemma VerifyOutcomeIs(events: seq<Event>, states: seq<State>, k: nat)
    requires IsRun(events, states) && k < |events| && events[k].action.Verify?
    ensures var Verify(phone, submitted, now) := events[k].action;
            var latest := Track(events[..k], phone);
            events[k].outcome ==
              if latest.Never? || latest.won || latest.blocked || now >= latest.last + 300.0 then NoCode
              else if latest.tries == 3 then TooManyAttempts
              else if submitted == latest.code then Verified
              else Incorrect
  {
    assert (states[k + 1], events[k].outcome) == Step(states[k], events[k].action);
    PrefixIsRun(events, states, k);
    RunTracks(events[..k], states[..k + 1], events[k].action.phone);
  }

  lemma {:induction false} EndsInOrder(events: seq<Event>, states: seq<State>, i: nat, j: nat)
    requires IsRun(events, states) && i <= j < |events|
    ensures End(events[i].action) <= End(events[j].action)
    ensures i < j ==> End(events[i].action) <= Start(events[j].action)
    decreases j
  {
    if i < j {
      EndsInOrder(events, states, i, j - 1);
      assert End(events[j - 1].action) <= Start(events[j - 1 + 1].action);
    }
  }

  /** A code is last answered as wrong no earlier than it was issued. */
  lemma {:induction false} LastAfterIssue(events: seq<Event>, states: seq<State>, phone: Phone)
    requires IsRun(events, states)
    ensures var latest := Track(events, phone);
            latest.Issued? ==> events != [] && latest.at <= latest.last <= End(events[|events| - 1].action)
  {
    if events != [] {
      var k := |events| - 1;
      PrefixIsRun(events, states, k);
      LastAfterIssue(events[..k], states[..k + 1], phone);
      if k > 0 {
        EndsInOrder(events, states, k - 1, k);
      }
    }
  }

  /** Within 300 seconds of its issue the latest code is compared with up to three submissions, as long as
      none of them matches: the right one is accepted, and a wrong one is answered as such. */
  lemma RightCodeIsAccepted(events: seq<Event>, states: seq<State>, k: nat)
    requires IsRun(events, states) && k < |events| && events[k].action.Verify?
    requires var latest := Track(events[..k], events[k].action.phone);
             && latest.Issued? && !latest.won && latest.tries < 3
             && events[k].action.now < latest.at + 300.0
    ensures events[k].outcome ==
            if events[k].action.submitted == Track(events[..k], events[k].action.phone).code
            then Verified else Incorrect
  {
    PrefixIsRun(events, states, k);
    RunTracks(events[..k], states[..k + 1], events[k].action.phone);
    LastAfterIssue(events[..k], states[..k + 1], events[k].action.phone);
    VerifyOutcomeIs(events, states, k);
  }

  /** Each issued code is compared with at most three submissions. */
  lemma AtMostThreeTries(events: seq<Event>, states: seq<State>, phone: Phone)
    requires IsRun(events, states)
    ensures var latest := Track(events, phone); latest.Issued? ==> latest.tries <= 3
  {
    RunTracks(events, states, phone);
  }

  /** A success submits the most recently issued code, which nobody has submitted successfully before,
      as at most its third comparison, less than three lifetimes after it was issued. */
  lemma SuccessIsRecent(events: seq<Event>, states: seq<State>, k: nat)
    requires IsRun(events, states) && k < |events|
    requires events[k].outcome == Verified
    ensures events[k].action.Verify?
    ensures var latest := Track(events[..k], events[k].action.phone);
            && latest.Issued? && latest.code == events[k].action.submitted
            && !latest.won && latest.tries < 3
            && events[k].action.now < latest.at + 900.0
  {
    assert (states[k + 1], events[k].outcome) == Step(states[k], events[k].action);
    PrefixIsRun(events, states, k);
    RunTracks(events[..k], states[..k + 1], events[k].action.phone);
    var latest := Track(events[..k], events[k].action.phone);
    assert (1 + latest.tries) as real <= 3.0;
  }

  lemma {:induction false} WonStays(events: seq<Event>, i: nat, k: nat, phone: Phone)
    requires i < k <= |events|
    requires events[i].outcome == Verified && events[i].action.Verify? && events[i].action.phone == phone
    requires Track(events[..i], phone).Issued?
    requires forall j :: i < j < k ==> !Issues(events[j], phone)
    ensures Track(events[..k], phone).Issued? && Track(events[..k], phone).won
  {
    assert events[..k][..k - 1] == events[..k - 1];
    if k - 1 > i {
      WonStays(events, i, k - 1, phone);
    }
  }

  /** After a success nothing verifies until the next request that passes the limits. */
  lemma NoSecondSuccess(events: seq<Event>, states: seq<State>, i: nat, k: nat, phone: Phone)
    requires IsRun(events, states) && i < k < |events|
    requires events[i].outcome == Verified && events[i].action.phone == phone
    requires events[k].outcome == Verified && events[k].action.phone == phone
    ensures exists j :: i < j < k && Issues(events[j], phone)
  {
    if forall j :: i < j < k ==> !Issues(events[j], phone) {
      SuccessIsRecent(events, states, i);
      SuccessIsRecent(events, states, k);
      WonStays(events, i, k, phone);
    }
  }

  // ---- Spacing per phone ----

  /** The latest code is no younger than the latest issue. */
  lemma {:induction false} TrackAfterIssue(events: seq<Event>, states: seq<State>, i: nat, k: nat, phone: Phone)
    requires IsRun(events, states) && i < k <= |events| && Issues(events[i], phone)
    ensures Track(events[..k], phone).Issued? && Track(events[..k], phone).at >= events[i].action.later
    decreases k
  {
    assert events[..k][..k - 1] == events[..k - 1];
    if k - 1 > i {
      TrackAfterIssue(events, states, i, k - 1, phone);
      EndsInOrder(events, states, i, k - 1);
    }
  }

  /** Two requests for one phone that both pass the limits are at least 60 seconds apart. */
  lemma PassesAreSpaced(events: seq<Event>, states: seq<State>, i: nat, k: nat, phone: Phone)
    requires IsRun(events, states) && i < k < |events|
    requires Issues(events[i], phone) && Issues(events[k], phone)
    ensures events[k].action.later >= events[k].action.now >= events[i].action.later + 60.0
  {
    assert (states[k + 1], events[k].outcome) == Step(states[k], events[k].action);
    PrefixIsRun(events, states, k);
    RunTracks(events[..k], states[..k + 1], phone);
    TrackAfterIssue(events, states, i, k, phone);
    assert Start(events[k].action) <= End(events[k].action);
  }

  // ---- Counting per address ----

  predicate PassesFrom(e: Event, ip: Ip) {
    e.action.Request? && e.action.ip == ip && (e.outcome == Sent || e.outcome == SendFailed)
  }

  /** The times of the requests from an address that passed the limits, in order. */
  ghost function PassTimes(events: seq<Event>, ip: Ip): seq<Time> {
    if events == [] then []
    else
      PassTimes(events[..|events| - 1], ip)
      + var e := events[|events| - 1]; if PassesFrom(e, ip) then [e.action.later] else []
  }

  /** Each pass belongs to a counter window that starts at most 3600 seconds before it; windows of
      different passes coincide or are at least 3600 seconds apart; no window holds more than ten. */
  ghost predicate Windows(times: seq<Time>, starts: seq<Time>) {
    && |starts| == |times|
    && (forall i :: 0 <= i < |times| ==> starts[i] <= times[i] < starts[i] + IP_RATE_TTL)
    && (forall i, j :: 0 <= i < j < |times| ==> starts[i] == starts[j] || starts[i] + IP_RATE_TTL <= starts[j])
    && (forall i, j :: 0 <= i < j < |times| && starts[i] == starts[j] ==> j - i < IP_RATE_MAX)
  }

  /** The live counter is that of the newest window and counts at least its passes. */
  ghost predicate Counts(counters: map<Ip, Counter>, ip: Ip, starts: seq<Time>) {
    (ip !in counters ==> starts == []) &&
    (ip in counters ==>
       var c := counters[ip];
       && (forall i :: 0 <= i < |starts| ==>
             starts[i] + IP_RATE_TTL == c.expires || starts[i] + IP_RATE_TTL <= c.expires - IP_RATE_TTL)
       && (forall i :: 0 <= i < |starts| && starts[i] + IP_RATE_TTL == c.expires ==> |starts| - i <= c.count))
  }

  lemma AddKeepsCounts(s: State, ip: Ip, now: Time, starts: seq<Time>)
    requires Counts(s.ipCounters, ip, starts)
    ensures Counts(AddCounter(s, ip, now).ipCounters, ip, starts)
    ensures ip in AddCounter(s, ip, now).ipCounters
  {
  }

  lemma CountKeepsCounts(s: State, ip: Ip, later: Time, starts: seq<Time>)
    requires Counts(s.ipCounters, ip, starts) && ip in s.ipCounters
    requires s.ipCounters[ip].expires - IP_RATE_TTL <= later
    ensures var s' := CountRequest(s, ip, later);
            && ip in s'.ipCounters && Counts(s'.ipCounters, ip, starts)
            && var c := s'.ipCounters[ip];
            && c.expires - IP_RATE_TTL <= later < c.expires && c.count >= 1
            && forall i :: 0 <= i < |starts| && starts[i] + IP_RATE_TTL == c.expires ==> |starts| - i < c.count
  {
  }

  /** A request counted as one of the first ten of its window can join the window's passes. */
  lemma PassJoinsWindow(c: Counter, later: Time, times: seq<Time>, starts: seq<Time>)
    requires Windows(times, starts) && c.count <= IP_RATE_MAX
    requires c.expires - IP_RATE_TTL <= later < c.expires
    requires forall i :: 0 <= i < |starts| ==>
               starts[i] + IP_RATE_TTL == c.expires || starts[i] + IP_RATE_TTL <= c.expires - IP_RATE_TTL
    requires forall i :: 0 <= i < |starts| && starts[i] + IP_RATE_TTL == c.expires ==> |starts| - i < c.count
    ensures Windows(times + [later], starts + [c.expires - IP_RATE_TTL])
  {
    var starts' := starts + [c.expires - IP_RATE_TTL];
    forall i, j | 0 <= i < j < |starts'| && starts'[i] == starts'[j]
      ensures j - i < IP_RATE_MAX
    {
      if j == |starts| {
        assert starts[i] + IP_RATE_TTL == c.expires;
      }
    }
  }

  /** The counter's window has begun. */
  ghost predicate Begun(counters: map<Ip, Counter>, ip: Ip, now: Time) {
    ip in counters ==> counters[ip].expires - IP_RATE_TTL <= now
  }

  lemma SameCounterCounts(before: map<Ip, Counter>, now: map<Ip, Counter>, ip: Ip, starts: seq<Time>)
    requires Counts(before, ip, starts)
    requires (ip in now <==> ip in before) && (ip in before ==> now[ip] == before[ip])
    ensures Counts(now, ip, starts)
  {
  }

  ghost predicate SameCounter(s: State, s': State, ip: Ip) {
    (ip in s'.ipCounters <==> ip in s.ipCounters) && (ip in s.ipCounters ==> s'.ipCounters[ip] == s.ipCounters[ip])
  }

  lemma CountersAfter(s: State, a: Action, ip: Ip)
    requires ip != ""
    ensures var s' := Step(s, a).0;
            if a.Request? && a.ip == ip && Step(s, a).1 != PhoneLimited then
              var counted := CountRequest(AddCounter(s, ip, a.now), ip, a.later);
              s'.ipCounters == counted.ipCounters &&
              (Step(s, a).1 == IpLimited <==> counted.ipCounters[ip].count > IP_RATE_MAX)
            else SameCounter(s, s', ip)
  {
  }

  lemma PassCounts(s: State, ip: Ip, starts: seq<Time>)
    requires ip in s.ipCounters && Counts(s.ipCounters, ip, starts) && s.ipCounters[ip].count >= 1
    requires var c := s.ipCounters[ip];
             forall i :: 0 <= i < |starts| && starts[i] + IP_RATE_TTL == c.expires ==> |starts| - i < c.count
    ensures Counts(s.ipCounters, ip, starts + [s.ipCounters[ip].expires - IP_RATE_TTL])
  {
  }

  lemma JoinedWindow(s: State, ip: Ip, later: Time, times: seq<Time>, starts: seq<Time>) returns (starts': seq<Time>)
    requires ip in s.ipCounters && Windows(times, starts) && Counts(s.ipCounters, ip, starts)
    requires var c := s.ipCounters[ip];
             && c.expires - IP_RATE_TTL <= later < c.expires && 1 <= c.count <= IP_RATE_MAX
             && forall i :: 0 <= i < |starts| && starts[i] + IP_RATE_TTL == c.expires ==> |starts| - i < c.count
    ensures Counts(s.ipCounters, ip, starts') && Windows(times + [later], starts')
  {
    PassJoinsWindow(s.ipCounters[ip], later, times, starts);
    starts' := starts + [s.ipCounters[ip].expires - IP_RATE_TTL];
    PassCounts(s, ip, starts);
  }

  lemma CountedRequest(s: State, ip: Ip, now: Time, later: Time, passed: bool, times: seq<Time>, starts: seq<Time>)
      returns (starts': seq<Time>)
    requires Windows(times, starts) && Counts(s.ipCounters, ip, starts) && Begun(s.ipCounters, ip, now) && now <= later
    requires passed ==> CountRequest(AddCounter(s, ip, now), ip, later).ipCounters[ip].count <= IP_RATE_MAX
    ensures var s' := CountRequest(AddCounter(s, ip, now), ip, later);
            Counts(s'.ipCounters, ip, starts') && Begun(s'.ipCounters, ip, later)
    ensures Windows(times + (if passed then [later] else []), starts')
  {
    var s' := CountRequest(AddCounter(s, ip, now), ip, later);
    AddKeepsCounts(s, ip, now, starts);
    CountKeepsCounts(AddCounter(s, ip, now), ip, later, starts);
    if passed {
      starts' := JoinedWindow(s', ip, later, times, starts);
    } else {
      starts' := starts;
      assert times + [] == times;
    }
  }

  /** One call extends the window bookkeeping, if its outcome is a pass from the address. */
  lemma WindowStep(s: State, e: Event, ip: Ip, times: seq<Time>, starts: seq<Time>) returns (starts': seq<Time>)
    requires ip != "" && Windows(times, starts) && Counts(s.ipCounters, ip, starts)
    requires Begun(s.ipCounters, ip, Start(e.action))
    requires e.outcome == Step(s, e.action).1 && Start(e.action) <= End(e.action)
    ensures Counts(Step(s, e.action).0.ipCounters, ip, starts')
    ensures Begun(Step(s, e.action).0.ipCounters, ip, End(e.action))
    ensures Windows(times + (if PassesFrom(e, ip) then [e.action.later] else []), starts')
  {
    CountersAfter(s, e.action, ip);
    if e.action.Request? && e.action.ip == ip && e.outcome != PhoneLimited {
      starts' := CountedRequest(s, ip, e.action.now, e.action.later, PassesFrom(e, ip), times, starts);
    } else {
      starts' := starts;
      assert times + [] == times;
      SameCounterCounts(s.ipCounters, Step(s, e.action).0.ipCounters, ip, starts);
    }
  }

  lemma {:induction false} RunWindows(events: seq<Event>, states: seq<State>, ip: Ip) returns (starts: seq<Time>)
    requires IsRun(events, states) && ip != ""
    ensures Windows(PassTimes(events, ip), starts) && Counts(states[|events|].ipCounters, ip, starts)
    ensures events != [] ==> Begun(states[|events|].ipCounters, ip, End(events[|events| - 1].action))
  {
    if events == [] {
      starts := [];
    } else {
      var k := |events| - 1;
      PrefixIsRun(events, states, k);
      var before := RunWindows(events[..k], states[..k + 1], ip);
      assert (states[k + 1], events[k].outcome) == Step(states[k], events[k].action);
      assert k > 0 ==> End(events[k - 1].action) <= Start(events[k - 1 + 1].action);
      starts := WindowStep(states[k], events[k], ip, PassTimes(events[..k], ip), before);
    }
  }

  /** Windows ten passes apart differ, so windows twenty passes apart are two windows apart. */
  lemma TwentyOneSpan(times: seq<Time>, starts: seq<Time>, i: nat)
    requires Windows(times, starts) && i + 2 * IP_RATE_MAX < |times|
    ensures times[i + 2 * IP_RATE_MAX] > times[i] + IP_RATE_TTL
  {
    assert starts[i] != starts[i + IP_RATE_MAX];
    assert starts[i + IP_RATE_MAX] != starts[i + 2 * IP_RATE_MAX];
  }

  /** The passes at positions i .. j - 1 of an address lie within a half-open stretch of 3600 seconds
      only if there are at most twenty of them. */
  lemma AtMostTwentyPerHour(events: seq<Event>, states: seq<State>, ip: Ip, i: nat, j: nat, from: Time)
    requires IsRun(events, states) && ip != "" && i <= j <= |PassTimes(events, ip)|
    requires forall k :: i <= k < j ==> from <= PassTimes(events, ip)[k] < from + 3600.0
    ensures j - i <= 20
  {
    var starts := RunWindows(events, states, ip);
    if j - i > 2 * IP_RATE_MAX {
      TwentyOneSpan(PassTimes(events, ip), starts, i);
    }
  }

  // ---- What a request is answered ----

  /** The request was not refused for its phone, so it counts for its address. */
  predicate Counted(e: Event, ip: Ip) {
    e.action.Request? && e.action.ip == ip && e.outcome != PhoneLimited
  }

  /** How many requests from an address were counted at the given time or later. */
  ghost function CountedFrom(events: seq<Event>, ip: Ip, from: Time): nat {
    if events == [] then 0
    else
      CountedFrom(events[..|events| - 1], ip, from)
      + var e := events[|events| - 1]; if Counted(e, ip) && e.action.later >= from then 1 else 0
  }

  lemma {:induction false} CountedFromFalls(events: seq<Event>, ip: Ip, from: Time, from': Time)
    requires from <= from'
    ensures CountedFrom(events, ip, from') <= CountedFrom(events, ip, from)
  {
    if events != [] {
      CountedFromFalls(events[..|events| - 1], ip, from, from');
    }
  }

  lemma CountedStep(before: seq<Event>, e: Event, ip: Ip, from: Time)
    ensures CountedFrom(before + [e], ip, from) ==
            CountedFrom(before, ip, from) + if Counted(e, ip) && e.action.later >= from then 1 else 0
  {
    assert (before + [e])[..|before|] == before;
  }

  /** The counter holds no more than the requests counted since its window began. */
  ghost predicate CountBound(counters: map<Ip, Counter>, ip: Ip, events: seq<Event>) {
    ip in counters ==> counters[ip].count <= CountedFrom(events, ip, counters[ip].expires - IP_RATE_TTL)
  }

  lemma CountBoundStep(s: State, before: seq<Event>, e: Event, ip: Ip)
    requires ip != "" && CountBound(s.ipCounters, ip, before) && Begun(s.ipCounters, ip, Start(e.action))
    requires e.outcome == Step(s, e.action).1 && Start(e.action) <= End(e.action)
    ensures CountBound(Step(s, e.action).0.ipCounters, ip, before + [e])
    ensures Begun(Step(s, e.action).0.ipCounters, ip, End(e.action))
  {
    var s' := Step(s, e.action).0;
    CountersAfter(s, e.action, ip);
    if ip in s'.ipCounters {
      CountedStep(before, e, ip, s'.ipCounters[ip].expires - IP_RATE_TTL);
    }
  }

  lemma {:induction false} RunCounts(events: seq<Event>, states: seq<State>, ip: Ip)
    requires IsRun(events, states) && ip != ""
    ensures CountBound(states[|events|].ipCounters, ip, events)
    ensures events != [] ==> Begun(states[|events|].ipCounters, ip, End(events[|events| - 1].action))
  {
    if events != [] {
      var k := |events| - 1;
      PrefixIsRun(events, states, k);
      RunCounts(events[..k], states[..k + 1], ip);
      assert events == events[..k] + [events[k]];
      assert (states[k + 1], events[k].outcome) == Step(states[k], events[k].action);
      assert k > 0 ==> End(events[k - 1].action) <= Start(events[k - 1 + 1].action);
      CountBoundStep(states[k], events[..k], events[k], ip);
    }
  }

  /** With fewer than ten counted in the 3600 seconds before, one more is among the first ten of its
      window. */
  lemma QuietAddressPasses(s: State, events: seq<Event>, ip: Ip, now: Time, later: Time)
    requires CountBound(s.ipCounters, ip, events) && now <= later
    requires CountedFrom(events, ip, later - 3600.0) < 10
    ensures CountRequest(AddCounter(s, ip, now), ip, later).ipCounters[ip].count <= 10
  {
    if ip in s.ipCounters && later < s.ipCounters[ip].expires {
      CountedFromFalls(events, ip, later - 3600.0, s.ipCounters[ip].expires - IP_RATE_TTL);
    }
  }

  /** A request is refused for its phone exactly within 60 seconds of the issue of the phone's latest code.
      If not, and it carries no address or one with fewer than ten counted requests in the 3600 seconds
      before, it passes; and it says whether the message went out. */
  lemma RequestOutcomeIs(events: seq<Event>, states: seq<State>, k: nat)
    requires IsRun(events, states) && k < |events| && events[k].action.Request?
    ensures var Request(phone, ip, _, sent, now, later) := events[k].action;
            var latest := Track(events[..k], phone);
            && (events[k].outcome == PhoneLimited <==> latest.Issued? && now < latest.at + 60.0)
            && (events[k].outcome != PhoneLimited && (ip == "" || CountedFrom(events[..k], ip, later - 3600.0) < 10)
                ==> events[k].outcome == if sent then Sent else SendFailed)
  {
    var Request(phone, ip, code, sent, now, later) := events[k].action;
    assert (states[k + 1], events[k].outcome) == Step(states[k], events[k].action);
    assert Start(events[k].action) <= End(events[k].action);
    PrefixIsRun(events, states, k);
    RunTracks(events[..k], states[..k + 1], phone);
    if ip != "" && CountedFrom(events[..k], ip, later - 3600.0) < 10 {
      RunCounts(events[..k], states[..k + 1], ip);
      QuietAddressPasses(states[k], events[..k], ip, now, later);
    }
  }

  // ---- The code ----

  class OtpService {
    var otps: map<Phone, OtpEntry>
    var phoneLocks: map<Phone, Time>
    var ipCounters: map<Ip, Counter>

    ghost function View(): State
      reads this
    {
      State(otps, phoneLocks, ipCounters)
    }

    constructor ()
      ensures View() == INIT
    {
      otps, phoneLocks, ipCounters := map[], map[], map[];
    }

    /** Returns the refusal, if the limits refuse. */
    method CheckRateLimits(phone: Phone, ip: Ip, now: Time, later: Time) returns (refused: Option<Outcome>)
      modifies this`ipCounters
      ensures var s := old(View());
              if phone in s.phoneLocks && now < s.phoneLocks[phone] then
                refused == Some(PhoneLimited) && View() == s
              else if ip == "" then refused == None && View() == s
              else
                && View() == CountRequest(AddCounter(s, ip, now), ip, later)
                && refused == if View().ipCounters[ip].count > IP_RATE_MAX then Some(IpLimited) else None
    {
      if phone in phoneLocks && now < phoneLocks[phone] {
        return Some(PhoneLimited);
      }
      if ip != "" {
        if !(ip in ipCounters && now < ipCounters[ip].expires) {
          ipCounters := ipCounters[ip := Counter(0, now + IP_RATE_TTL)];
        }
        var count;
        if later < ipCounters[ip].expires {
          count := ipCounters[ip].count + 1;
          ipCounters := ipCounters[ip := ipCounters[ip].(count := count)];
        } else {
          ipCounters := ipCounters[ip := Counter(1, later + IP_RATE_TTL)];
          count := 1;
        }
        if count > IP_RATE_MAX {
          return Some(IpLimited);
        }
      }
      refused := None;
    }

    method RequestOtp(phone: Phone, ip: Ip, code: Code, sent: bool, now: Time, later: Time) returns (outcome: Outcome)
      modifies this
      ensures (View(), outcome) == Step(old(View()), Request(phone, ip, code, sent, now, later))
    {
      var refused := CheckRateLimits(phone, ip, now, later);
      if refused.Some? {
        return refused.value;
      }
      otps := otps[phone := OtpEntry(code, 0, later + OTP_TTL)];
      phoneLocks := phoneLocks[phone := later + PHONE_RATE_TTL];
      outcome := if sent then Sent else SendFailed;
    }

    method VerifyOtp(phone: Phone, submitted: Code, now: Time) returns (outcome: Outcome)
      modifies this`otps
      ensures (View(), outcome) == Step(old(View()), Verify(phone, submitted, now))
    {
      if phone !in otps || now >= otps[phone].expires {
        return NoCode;
      }
      var entry := otps[phone];
      var attempts := entry.attempts + 1;
      if attempts > OTP_MAX_ATTEMPTS {
        otps := otps - {phone};
        return TooManyAttempts;
      }
      if entry.code != submitted {
        otps := otps[phone := OtpEntry(entry.code, attempts, now + OTP_TTL)];
        return Incorrect;
      }
      otps := otps - {phone};
      outcome := Verified;
    }
  }
}
