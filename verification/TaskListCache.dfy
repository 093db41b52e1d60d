/** The version-keyed cache of per-user task lists, with any number of list calls and task writes
    interleaving one cache or database access at a time. */
module TaskListCache {

  type UserId = nat
  type CallId = nat
  type BumpId = nat
  type Version = nat
  type Rows = seq<string>

  /** A list entry's cache key. */
  datatype Key = Key(user: UserId, version: Version)

  /** A list call under way: its cache key, where in the table's history that key starts and where the
      call itself started, whether no write was in flight then, and how far the call has come. */
  datatype Call = Call(user: UserId, version: Version, floor: nat, start: nat, quiet: bool, phase: Phase)

  datatype Phase = Starting | Probing | Missed | Holding(rows: Rows)

  /** An increment under way: the version it has read, 0 for a missing one. */
  datatype Increment = Increment(user: UserId, read: Version)

  /** A finished call: what it returned, and the position in the history when it did. */
  datatype Response = Response(call: Call, rows: Rows, finish: nat)

  /** The task tables and the versions: all that decides which rows a key may stand for. */
  datatype Ledger = Ledger(
    /** Every value a user's task table has had; the last one is current. */
    history: map<UserId, seq<Rows>>,
    /** Writes already visible whose version bump has not happened yet. */
    pending: map<UserId, nat>,
    version: map<UserId, Version>,
    /** Bookkeeping: the position in the history when a version first became current. */
    floors: map<Key, nat>)

  datatype State = State(
    ledger: Ledger,
    bumps: map<BumpId, Increment>,
    entries: map<Key, Rows>,
    calls: map<CallId, Call>,
    responses: seq<Response>)

  const INIT := State(Ledger(map[], map[], map[], map[]), map[], map[], map[], [])

  function History(l: Ledger, u: UserId): (h: seq<Rows>)
    ensures u !in l.history || l.history[u] == [] ==> |h| == 1
    ensures |h| > 0
  {
    if u in l.history && l.history[u] != [] then l.history[u] else [[]]
  }

  function Now(l: Ledger, u: UserId): nat {
    |History(l, u)| - 1
  }

  function Current(l: Ledger, u: UserId): Rows {
    History(l, u)[Now(l, u)]
  }

  function Pending(l: Ledger, u: UserId): nat {
    if u in l.pending then l.pending[u] else 0
  }

  /** `ReadGet` and `ReadInit` are the get and the set of `get_user_cache_version`, `BumpGet` and
      `BumpSet` those of `increment_user_cache_version`. A call that raises, or whose worker dies, is
      aborted. */
  datatype Action =
    | ReadGet(call: CallId, user: UserId)
    | ReadInit(call: CallId, user: UserId)
    | Probe(call: CallId)
    | Query(call: CallId)
    | Store(call: CallId)
    | Abort(call: CallId)
    | Commit(user: UserId, rows: Rows)
    | BumpGet(bump: BumpId, user: UserId)
    | BumpSet(bump: BumpId)
    | Expire(user: UserId, version: Version)

  predicate Enabled(s: State, a: Action) {
    match a
    case ReadGet(c, _) => c !in s.calls
    case ReadInit(c, u) => c in s.calls && s.calls[c].phase == Starting && s.calls[c].user == u
    case Probe(c) => c in s.calls && s.calls[c].phase == Probing
    case Query(c) => c in s.calls && s.calls[c].phase == Missed
    case Store(c) => c in s.calls && s.calls[c].phase.Holding?
    case Abort(c) => c in s.calls
    case Commit(_, _) => true
    case BumpGet(b, u) => b !in s.bumps && Pending(s.ledger, u) > 0
    case BumpSet(b) => b in s.bumps && Pending(s.ledger, s.bumps[b].user) > 0
    case Expire(_, _) => true
  }

  function VersionOr0(l: Ledger, u: UserId): Version {
    if u in l.version then l.version[u] else 0
  }

  /** Makes v the user's version; the first time, where in the history that happens is put on record. */
  function SetVersion(l: Ledger, u: UserId, v: Version): Ledger {
    l.(version := l.version[u := v],
       floors := if Key(u, v) in l.floors then l.floors else l.floors[Key(u, v) := Now(l, u)])
  }

  function CommitRows(l: Ledger, u: UserId, rows: Rows): Ledger {
    l.(history := l.history[u := History(l, u) + [rows]], pending := l.pending[u := Pending(l, u) + 1])
  }

  function Settle(l: Ledger, u: UserId, left: nat): Ledger {
    l.(pending := l.pending[u := left])
  }

  /** The write of an increment that ends one of the user's writes. */
  function WriteBump(l: Ledger, i: Increment): Ledger
    requires Pending(l, i.user) > 0
  {
    Settle(SetVersion(l, i.user, i.read + 1), i.user, Pending(l, i.user) - 1)
  }

  function NewCall(l: Ledger, u: UserId): Call {
    Call(u, 0, 0, Now(l, u), Pending(l, u) == 0, Starting)
  }

  /** The call, once it knows its user's version. */
  function Keyed(l: Ledger, call: Call): Call {
    var key := Key(call.user, VersionOr0(l, call.user));
    call.(version := key.version, floor := if key in l.floors then l.floors[key] else 0, phase := Probing)
  }

  function Respond(s: State, c: CallId, rows: Rows): State
    requires c in s.calls
  {
    var call := s.calls[c];
    s.(calls := s.calls - {c}, responses := s.responses + [Response(call, rows, Now(s.ledger, call.user))])
  }

  function Step(s: State, a: Action): State
    requires Enabled(s, a)
  {
    match a
    case ReadGet(c, u) =>
      var call := NewCall(s.ledger, u);
      s.(calls := s.calls[c := if u in s.ledger.version then Keyed(s.ledger, call) else call])
    case ReadInit(c, u) =>
      var l := SetVersion(s.ledger, u, 1);
      s.(ledger := l, calls := s.calls[c := Keyed(l, s.calls[c])])
    case Probe(c) =>
      var call := s.calls[c];
      if Key(call.user, call.version) in s.entries then
        Respond(s, c, s.entries[Key(call.user, call.version)])
      else
        s.(calls := s.calls[c := call.(phase := Missed)])
    case Query(c) =>
      var call := s.calls[c];
      s.(calls := s.calls[c := call.(phase := Holding(Current(s.ledger, call.user)))])
    case Store(c) =>
      var call := s.calls[c];
      Respond(s.(entries := s.entries[Key(call.user, call.version) := call.phase.rows]), c, call.phase.rows)
    case Abort(c) =>
      s.(calls := s.calls - {c})
    case Commit(u, rows) =>
      s.(ledger := CommitRows(s.ledger, u, rows))
    case BumpGet(b, u) =>
      s.(bumps := s.bumps[b := Increment(u, VersionOr0(s.ledger, u))])
    case BumpSet(b) =>
      s.(ledger := WriteBump(s.ledger, s.bumps[b]), bumps := s.bumps - {b})
    case Expire(u, v) =>
      s.(entries := s.entries - {Key(u, v)})
  }

  // ---- Runs ----

  ghost predicate IsRun(actions: seq<Action>, states: seq<State>) {
    && |states| == |actions| + 1
    && states[0] == INIT
    && forall i :: 0 <= i < |actions| ==> Enabled(states[i], actions[i]) && states[i + 1] == Step(states[i], actions[i])
  }

  lemma Extend(actions: seq<Action>, states: seq<State>, a: Action) returns (longer: seq<Action>, states': seq<State>)
    requires IsRun(actions, states) && Enabled(states[|actions|], a)
    ensures longer == actions + [a] && IsRun(longer, states') && states <= states'
    ensures states'[|actions|] == states[|actions|] && states'[|longer|] == Step(states[|actions|], a)
  {
    longer, states' := actions + [a], states + [Step(states[|actions|], a)];
  }

  lemma PrefixIsRun(actions: seq<Action>, states: seq<State>, k: nat)
    requires IsRun(actions, states) && k <= |actions|
    ensures IsRun(actions[..k], states[..k + 1]) && states[..k + 1][k] == states[k]
  {
  }

  // ---- What holds of every run ----

  /** The rows were the table's content at some position from `from` up to `to`. */
  ghost predicate HeldBetween(h: seq<Rows>, from: nat, to: nat, rows: Rows) {
    exists i :: from <= i <= to && i < |h| && h[i] == rows
  }

  /** Every version that is or was current is on record. */
  ghost predicate Recorded(l: Ledger) {
    && (forall u :: u in l.version ==> Key(u, l.version[u]) in l.floors)
    && (forall k :: k in l.floors ==> k.user in l.version && l.floors[k] <= Now(l, k.user))
  }

  /** The rows under a key were the table's at some moment since its version first became current. */
  ghost predicate EntrySound(l: Ledger, k: Key, rows: Rows) {
    k in l.floors && HeldBetween(History(l, k.user), l.floors[k], Now(l, k.user), rows)
  }

  /** A call that has found no version is older than all versions on record for its user. */
  ghost predicate CallSound(l: Ledger, call: Call) {
    var k := Key(call.user, call.version);
    && call.start <= Now(l, call.user)
    && (if call.phase == Starting then forall j :: j in l.floors && j.user == call.user ==> call.start <= l.floors[j]
        else k in l.floors && call.floor == l.floors[k])
    && (call.phase.Holding? ==> EntrySound(l, k, call.phase.rows))
  }

  ghost predicate ResponseSound(l: Ledger, r: Response) {
    && HeldBetween(History(l, r.call.user), r.call.floor, r.finish, r.rows)
    && r.call.phase != Starting && r.call.start <= r.finish <= Now(l, r.call.user)
  }

  ghost predicate Sound(s: State) {
    && Recorded(s.ledger)
    && (forall c :: c in s.calls ==> CallSound(s.ledger, s.calls[c]))
    && (forall k :: k in s.entries ==> EntrySound(s.ledger, k, s.entries[k]))
    && (forall i :: 0 <= i < |s.responses| ==> ResponseSound(s.ledger, s.responses[i]))
  }

  /** Tables only get longer histories, a key on record keeps its floor, and a new one starts now. */
  ghost predicate Grows(l: Ledger, l': Ledger) {
    && (forall u :: History(l, u) <= History(l', u))
    && (forall k :: k in l.floors ==> k in l'.floors && l'.floors[k] == l.floors[k])
    && (forall k :: k in l'.floors && k !in l.floors ==> Now(l, k.user) <= l'.floors[k])
  }

  lemma HeldLonger(h: seq<Rows>, h': seq<Rows>, from: nat, to: nat, to': nat, rows: Rows)
    requires HeldBetween(h, from, to, rows) && h <= h' && to <= to'
    ensures HeldBetween(h', from, to', rows)
  {
    var i :| from <= i <= to && i < |h| && h[i] == rows;
    assert h'[i] == rows;
  }

  lemma EntryGrows(l: Ledger, l': Ledger, k: Key, rows: Rows)
    requires Grows(l, l') && EntrySound(l, k, rows)
    ensures EntrySound(l', k, rows)
  {
    assert History(l, k.user) <= History(l', k.user);
    HeldLonger(History(l, k.user), History(l', k.user), l.floors[k], Now(l, k.user), Now(l', k.user), rows);
  }

  lemma CallGrows(l: Ledger, l': Ledger, call: Call)
    requires Grows(l, l') && CallSound(l, call)
    ensures CallSound(l', call)
  {
    assert History(l, call.user) <= History(l', call.user);
    if call.phase.Holding? {
      EntryGrows(l, l', Key(call.user, call.version), call.phase.rows);
    }
  }

  lemma ResponseGrows(l: Ledger, l': Ledger, r: Response)
    requires Grows(l, l') && ResponseSound(l, r)
    ensures ResponseSound(l', r)
  {
    var u := r.call.user;
    assert History(l, u) <= History(l', u);
    HeldLonger(History(l, u), History(l', u), r.call.floor, r.finish, r.finish, r.rows);
  }

  lemma LedgerStep(s: State, l': Ledger)
    requires Sound(s) && Grows(s.ledger, l') && Recorded(l')
    ensures Sound(s.(ledger := l'))
  {
    forall c | c in s.calls ensures CallSound(l', s.calls[c]) {
      CallGrows(s.ledger, l', s.calls[c]);
    }
    forall k | k in s.entries ensures EntrySound(l', k, s.entries[k]) {
      EntryGrows(s.ledger, l', k, s.entries[k]);
    }
    forall i | 0 <= i < |s.responses| ensures ResponseSound(l', s.responses[i]) {
      ResponseGrows(s.ledger, l', s.responses[i]);
    }
  }

  lemma SetVersionGrows(l: Ledger, u: UserId, v: Version)
    requires Recorded(l)
    ensures Grows(l, SetVersion(l, u, v)) && Recorded(SetVersion(l, u, v))
  {
  }

  lemma SettleGrows(l: Ledger, m: Ledger, u: UserId, left: nat, n: Ledger)
    requires Grows(l, m) && Recorded(m) && n == Settle(m, u, left)
    ensures Grows(l, n) && Recorded(n)
  {
    assert forall x :: History(n, x) == History(m, x);
  }

  lemma WriteBumpGrows(l: Ledger, i: Increment)
    requires Recorded(l) && Pending(l, i.user) > 0
    ensures Grows(l, WriteBump(l, i)) && Recorded(WriteBump(l, i))
  {
    SetVersionGrows(l, i.user, i.read + 1);
    SettleGrows(l, SetVersion(l, i.user, i.read + 1), i.user, Pending(l, i.user) - 1, WriteBump(l, i));
  }

  lemma CommitGrows(l: Ledger, u: UserId, rows: Rows)
    requires Recorded(l)
    ensures Grows(l, CommitRows(l, u, rows)) && Recorded(CommitRows(l, u, rows))
  {
    var l' := CommitRows(l, u, rows);
    forall x ensures History(l, x) <= History(l', x) {
      assert x == u ==> History(l', x) == History(l, x) + [rows];
    }
  }

  lemma RespondStep(s: State, c: CallId, rows: Rows)
    requires Sound(s) && c in s.calls && s.calls[c].phase != Starting
    requires HeldBetween(History(s.ledger, s.calls[c].user), s.calls[c].floor, Now(s.ledger, s.calls[c].user), rows)
    ensures Sound(Respond(s, c, rows))
  {
    var s' := Respond(s, c, rows);
    assert CallSound(s.ledger, s.calls[c]);
    forall i | 0 <= i < |s'.responses| ensures ResponseSound(s.ledger, s'.responses[i]) {
      if i < |s.responses| {
        assert s'.responses[i] == s.responses[i];
      }
    }
  }

  lemma CallStep(s: State, c: CallId, call: Call)
    requires Sound(s) && CallSound(s.ledger, call)
    ensures Sound(s.(calls := s.calls[c := call]))
  {
  }

  lemma EntryStep(s: State, k: Key, rows: Rows)
    requires Sound(s) && EntrySound(s.ledger, k, rows)
    ensures Sound(s.(entries := s.entries[k := rows]))
  {
  }

  lemma ReadGetStep(s: State, c: CallId, u: UserId)
    requires Sound(s) && Enabled(s, ReadGet(c, u))
    ensures Sound(Step(s, ReadGet(c, u)))
  {
    var call := NewCall(s.ledger, u);
    if u in s.ledger.version {
      CallStep(s, c, Keyed(s.ledger, call));
    } else {
      CallStep(s, c, call);
    }
  }

  lemma ReadInitStep(s: State, c: CallId, u: UserId)
    requires Sound(s) && Enabled(s, ReadInit(c, u))
    ensures Sound(Step(s, ReadInit(c, u)))
  {
    var l := SetVersion(s.ledger, u, 1);
    assert CallSound(s.ledger, s.calls[c]);
    SetVersionGrows(s.ledger, u, 1);
    LedgerStep(s, l);
    CallStep(s.(ledger := l), c, Keyed(l, s.calls[c]));
  }

  lemma ProbeStep(s: State, c: CallId)
    requires Sound(s) && Enabled(s, Probe(c))
    ensures Sound(Step(s, Probe(c)))
  {
    var call := s.calls[c];
    var k := Key(call.user, call.version);
    assert CallSound(s.ledger, call);
    if k in s.entries {
      assert EntrySound(s.ledger, k, s.entries[k]);
      RespondStep(s, c, s.entries[k]);
    } else {
      CallStep(s, c, call.(phase := Missed));
    }
  }

  lemma QueryStep(s: State, c: CallId)
    requires Sound(s) && Enabled(s, Query(c))
    ensures Sound(Step(s, Query(c)))
  {
    var call := s.calls[c];
    var now := Current(s.ledger, call.user);
    assert CallSound(s.ledger, call);
    assert History(s.ledger, call.user)[Now(s.ledger, call.user)] == now;
    CallStep(s, c, call.(phase := Holding(now)));
  }

  lemma StoreStep(s: State, c: CallId)
    requires Sound(s) && Enabled(s, Store(c))
    ensures Sound(Step(s, Store(c)))
  {
    var call := s.calls[c];
    var k := Key(call.user, call.version);
    assert CallSound(s.ledger, call);
    EntryStep(s, k, call.phase.rows);
    RespondStep(s.(entries := s.entries[k := call.phase.rows]), c, call.phase.rows);
  }

  lemma StepGrows(s: State, a: Action)
    requires Recorded(s.ledger) && Enabled(s, a)
    ensures Grows(s.ledger, Step(s, a).ledger) && Recorded(Step(s, a).ledger)
  {
    match a
    case ReadInit(_, u) => SetVersionGrows(s.ledger, u, 1);
    case Commit(u, rows) => CommitGrows(s.ledger, u, rows);
    case BumpSet(b) => WriteBumpGrows(s.ledger, s.bumps[b]);
    case _ =>
  }

  /** Whatever interleaves, every entry, call and response stays sound. */
  lemma StepKeepsSound(s: State, a: Action)
    requires Sound(s) && Enabled(s, a)
    ensures Sound(Step(s, a))
  {
    match a
    case ReadGet(c, u) => ReadGetStep(s, c, u);
    case ReadInit(c, u) => ReadInitStep(s, c, u);
    case Probe(c) => ProbeStep(s, c);
    case Query(c) => QueryStep(s, c);
    case Store(c) => StoreStep(s, c);
    case Abort(_) =>
    case Commit(u, rows) =>
      CommitGrows(s.ledger, u, rows);
      LedgerStep(s, CommitRows(s.ledger, u, rows));
    case BumpGet(_, _) =>
    case BumpSet(b) =>
      WriteBumpGrows(s.ledger, s.bumps[b]);
      LedgerStep(s, WriteBump(s.ledger, s.bumps[b]));
    case Expire(_, _) =>
  }

  lemma {:induction false} RunIsSound(actions: seq<Action>, states: seq<State>, i: nat)
    requires IsRun(actions, states) && i < |states|
    ensures Sound(states[i])
  {
    if i > 0 {
      RunIsSound(actions, states, i - 1);
      assert states[i - 1 + 1] == Step(states[i - 1], actions[i - 1]);
      StepKeepsSound(states[i - 1], actions[i - 1]);
    }
  }

  // ---- When settled users are steady ----

  ghost predicate Flat(h: seq<Rows>, from: nat, to: nat) {
    forall i :: from <= i <= to && to < |h| ==> h[i] == h[to]
  }

  /** The version was never current before, or no write has changed the rows since it first was. */
  ghost predicate Harmless(l: Ledger, u: UserId, v: Version) {
    Key(u, v) in l.floors ==> Flat(History(l, u), l.floors[Key(u, v)], Now(l, u))
  }

  ghost predicate Steady(l: Ledger, u: UserId) {
    u in l.version ==> Harmless(l, u, l.version[u])
  }

  /** Every user without a write in flight has a steady version. */
  ghost predicate Calm(l: Ledger) {
    forall u :: Pending(l, u) == 0 ==> Steady(l, u)
  }

  /** The check a version write would need: one that leaves its user without a write in flight must not
      make a version current again after a write has changed the rows it stood for. */
  ghost predicate Guard(s: State, a: Action)
    requires Enabled(s, a)
  {
    match a
    case ReadInit(_, u) => Pending(s.ledger, u) == 0 ==> Harmless(s.ledger, u, 1)
    case BumpSet(b) =>
      var i := s.bumps[b];
      Pending(s.ledger, i.user) == 1 ==> Harmless(s.ledger, i.user, i.read + 1)
    case _ => true
  }

  ghost predicate Guarded(actions: seq<Action>, states: seq<State>)
    requires IsRun(actions, states)
  {
    forall i :: 0 <= i < |actions| ==> Guard(states[i], actions[i])
  }

  lemma SetVersionSteady(l: Ledger, u: UserId, v: Version)
    requires Recorded(l)
    ensures Steady(SetVersion(l, u, v), u) <==> Harmless(l, u, v)
    ensures forall x :: x != u ==> (Steady(SetVersion(l, u, v), x) <==> Steady(l, x))
  {
  }

  lemma CalmElsewhere(l: Ledger, l': Ledger, u: UserId)
    requires Calm(l)
    requires forall x :: x != u ==> Pending(l', x) == Pending(l, x) && (Steady(l', x) <==> Steady(l, x))
    ensures Calm(l') <==> (Pending(l', u) == 0 ==> Steady(l', u))
  {
    forall x | x != u && Pending(l', x) == 0 ensures Steady(l', x) {
      assert Pending(l, x) == 0 ==> Steady(l, x);
    }
  }

  lemma CalmAfterInit(l: Ledger, u: UserId)
    requires Recorded(l) && Calm(l)
    ensures Calm(SetVersion(l, u, 1)) <==> (Pending(l, u) == 0 ==> Harmless(l, u, 1))
  {
    SetVersionSteady(l, u, 1);
    CalmElsewhere(l, SetVersion(l, u, 1), u);
  }

  lemma SettleSteady(l: Ledger, u: UserId, left: nat, l': Ledger, x: UserId)
    requires l' == Settle(l, u, left)
    ensures Steady(l', x) <==> Steady(l, x)
    ensures Pending(l', x) == if x == u then left else Pending(l, x)
  {
  }

  lemma CalmAfterBump(l: Ledger, i: Increment)
    requires Recorded(l) && Calm(l) && Pending(l, i.user) > 0
    ensures Calm(WriteBump(l, i)) <==> (Pending(l, i.user) == 1 ==> Harmless(l, i.user, i.read + 1))
  {
    var l' := WriteBump(l, i);
    SetVersionSteady(l, i.user, i.read + 1);
    forall x
      ensures Pending(l', x) == if x == i.user then Pending(l, x) - 1 else Pending(l, x)
      ensures Steady(l', x) <==> if x == i.user then Harmless(l, i.user, i.read + 1) else Steady(l, x)
    {
      SettleSteady(SetVersion(l, i.user, i.read + 1), i.user, Pending(l, i.user) - 1, l', x);
    }
    CalmElsewhere(l, l', i.user);
  }

  lemma CalmAfterCommit(l: Ledger, u: UserId, rows: Rows)
    requires Recorded(l) && Calm(l)
    ensures Calm(CommitRows(l, u, rows))
  {
    var l' := CommitRows(l, u, rows);
    forall x | Pending(l', x) == 0 ensures Steady(l', x) {
      assert x != u && Pending(l, x) == 0 && Steady(l, x);
      assert History(l', x) == History(l, x);
    }
  }

  /** Calm is kept exactly by the steps that pass the check. */
  lemma CalmIff(s: State, a: Action)
    requires Recorded(s.ledger) && Calm(s.ledger) && Enabled(s, a)
    ensures Calm(Step(s, a).ledger) <==> Guard(s, a)
  {
    match a
    case ReadInit(_, u) => CalmAfterInit(s.ledger, u);
    case BumpSet(b) => CalmAfterBump(s.ledger, s.bumps[b]);
    case Commit(u, rows) => CalmAfterCommit(s.ledger, u, rows);
    case _ =>
  }

  lemma {:induction false} GuardedIsCalm(actions: seq<Action>, states: seq<State>, i: nat)
    requires IsRun(actions, states) && Guarded(actions, states) && i < |states|
    ensures Calm(states[i].ledger)
  {
    if i > 0 {
      GuardedIsCalm(actions, states, i - 1);
      RunIsSound(actions, states, i - 1);
      assert states[i - 1 + 1] == Step(states[i - 1], actions[i - 1]);
      CalmIff(states[i - 1], actions[i - 1]);
    }
  }

  /** With no write in flight, a cache entry under the user's current version is the current list. */
  ghost predicate Fresh(s: State, u: UserId) {
    Pending(s.ledger, u) == 0 && u in s.ledger.version && Key(u, s.ledger.version[u]) in s.entries ==>
      s.entries[Key(u, s.ledger.version[u])] == Current(s.ledger, u)
  }

  lemma SteadyIsFresh(s: State, u: UserId)
    requires Sound(s) && (Pending(s.ledger, u) == 0 ==> Steady(s.ledger, u))
    ensures Fresh(s, u)
  {
    if u in s.ledger.version && Key(u, s.ledger.version[u]) in s.entries {
      assert EntrySound(s.ledger, Key(u, s.ledger.version[u]), s.entries[Key(u, s.ledger.version[u])]);
    }
  }

  /** In every state of a guarded run the cache is fresh for every user. */
  lemma CacheNeverStale(actions: seq<Action>, states: seq<State>, i: nat, u: UserId)
    requires IsRun(actions, states) && Guarded(actions, states) && i < |states|
    ensures Fresh(states[i], u)
  {
    RunIsSound(actions, states, i);
    GuardedIsCalm(actions, states, i);
    SteadyIsFresh(states[i], u);
  }

  // ---- Responses ----

  /** A call that began with no write in flight began on the rows its key stands for, or before its
      version was first current. */
  ghost predicate QuietCall(l: Ledger, call: Call) {
    call.quiet && call.phase != Starting ==> Flat(History(l, call.user), call.floor, call.start)
  }

  ghost predicate QuietSound(s: State) {
    && (forall c :: c in s.calls ==> QuietCall(s.ledger, s.calls[c]))
    && (forall i :: 0 <= i < |s.responses| ==> QuietCall(s.ledger, s.responses[i].call))
  }

  lemma QuietCallGrows(l: Ledger, l': Ledger, call: Call)
    requires Grows(l, l') && QuietCall(l, call) && call.start <= Now(l, call.user)
    ensures QuietCall(l', call)
  {
    assert History(l, call.user) <= History(l', call.user);
  }

  lemma QuietGrows(s: State, l': Ledger)
    requires Sound(s) && QuietSound(s) && Grows(s.ledger, l')
    ensures QuietSound(s.(ledger := l'))
  {
    forall c | c in s.calls ensures QuietCall(l', s.calls[c]) {
      assert CallSound(s.ledger, s.calls[c]);
      QuietCallGrows(s.ledger, l', s.calls[c]);
    }
    forall i | 0 <= i < |s.responses| ensures QuietCall(l', s.responses[i].call) {
      assert ResponseSound(s.ledger, s.responses[i]);
      QuietCallGrows(s.ledger, l', s.responses[i].call);
    }
  }

  lemma QuietRespond(s: State, c: CallId, rows: Rows)
    requires QuietSound(s) && c in s.calls
    ensures QuietSound(Respond(s, c, rows))
  {
    assert QuietCall(s.ledger, s.calls[c]);
    var s' := Respond(s, c, rows);
    forall i | 0 <= i < |s'.responses| ensures QuietCall(s.ledger, s'.responses[i].call) {
      if i < |s.responses| {
        assert s'.responses[i] == s.responses[i];
      }
    }
  }

  lemma QuietCalls(s: State, c: CallId, call: Call)
    requires QuietSound(s) && QuietCall(s.ledger, call)
    ensures QuietSound(s.(calls := s.calls[c := call]))
  {
  }

  lemma QuietRead(s: State, c: CallId, u: UserId)
    requires Sound(s) && QuietSound(s) && Calm(s.ledger) && Enabled(s, ReadGet(c, u))
    ensures QuietSound(Step(s, ReadGet(c, u)))
  {
    var call := NewCall(s.ledger, u);
    assert Pending(s.ledger, u) == 0 ==> Steady(s.ledger, u);
    if u in s.ledger.version {
      assert QuietCall(s.ledger, Keyed(s.ledger, call));
      QuietCalls(s, c, Keyed(s.ledger, call));
    } else {
      QuietCalls(s, c, call);
    }
  }

  /** A call that found no version keeps to rows no older than its start. */
  lemma StartingIsQuiet(l: Ledger, call: Call)
    requires Recorded(l) && CallSound(l, call) && call.phase == Starting && call.user in l.version
    ensures QuietCall(l, Keyed(l, call))
  {
    var k := Key(call.user, l.version[call.user]);
    assert k in l.floors && call.start <= l.floors[k];
  }

  lemma QuietInit(s: State, c: CallId, u: UserId)
    requires Sound(s) && QuietSound(s) && Enabled(s, ReadInit(c, u))
    ensures QuietSound(Step(s, ReadInit(c, u)))
  {
    var l := SetVersion(s.ledger, u, 1);
    assert CallSound(s.ledger, s.calls[c]);
    SetVersionGrows(s.ledger, u, 1);
    QuietGrows(s, l);
    CallGrows(s.ledger, l, s.calls[c]);
    StartingIsQuiet(l, s.calls[c]);
    QuietCalls(s.(ledger := l), c, Keyed(l, s.calls[c]));
  }

  lemma QuietProbe(s: State, c: CallId)
    requires QuietSound(s) && Enabled(s, Probe(c))
    ensures QuietSound(Step(s, Probe(c)))
  {
    var call := s.calls[c];
    assert QuietCall(s.ledger, call);
    if Key(call.user, call.version) in s.entries {
      QuietRespond(s, c, s.entries[Key(call.user, call.version)]);
    } else {
      QuietCalls(s, c, call.(phase := Missed));
    }
  }

  lemma QuietQuery(s: State, c: CallId)
    requires QuietSound(s) && Enabled(s, Query(c))
    ensures QuietSound(Step(s, Query(c)))
  {
    assert QuietCall(s.ledger, s.calls[c]);
    QuietCalls(s, c, s.calls[c].(phase := Holding(Current(s.ledger, s.calls[c].user))));
  }

  lemma QuietStore(s: State, c: CallId)
    requires QuietSound(s) && Enabled(s, Store(c))
    ensures QuietSound(Step(s, Store(c)))
  {
    var call := s.calls[c];
    QuietRespond(s.(entries := s.entries[Key(call.user, call.version) := call.phase.rows]), c, call.phase.rows);
  }

  lemma QuietStep(s: State, a: Action)
    requires Sound(s) && QuietSound(s) && Calm(s.ledger) && Enabled(s, a)
    ensures QuietSound(Step(s, a))
  {
    match a
    case ReadGet(c, u) => QuietRead(s, c, u);
    case ReadInit(c, u) => QuietInit(s, c, u);
    case Probe(c) => QuietProbe(s, c);
    case Query(c) => QuietQuery(s, c);
    case Store(c) => QuietStore(s, c);
    case Abort(_) =>
    case Commit(u, rows) =>
      CommitGrows(s.ledger, u, rows);
      QuietGrows(s, CommitRows(s.ledger, u, rows));
    case BumpGet(_, _) =>
    case BumpSet(b) =>
      WriteBumpGrows(s.ledger, s.bumps[b]);
      QuietGrows(s, WriteBump(s.ledger, s.bumps[b]));
    case Expire(_, _) =>
  }

  lemma {:induction false} RunIsQuietSound(actions: seq<Action>, states: seq<State>, i: nat)
    requires IsRun(actions, states) && Guarded(actions, states) && i < |states|
    ensures QuietSound(states[i])
  {
    if i > 0 {
      RunIsQuietSound(actions, states, i - 1);
      RunIsSound(actions, states, i - 1);
      GuardedIsCalm(actions, states, i - 1);
      assert states[i - 1 + 1] == Step(states[i - 1], actions[i - 1]);
      QuietStep(states[i - 1], actions[i - 1]);
    }
  }

  lemma HeldSince(h: seq<Rows>, from: nat, start: nat, to: nat, rows: Rows)
    requires HeldBetween(h, from, to, rows) && Flat(h, from, start) && start <= to < |h|
    ensures HeldBetween(h, start, to, rows)
  {
    var i :| from <= i <= to && i < |h| && h[i] == rows;
    assert i < start ==> h[i] == h[start];
  }

  /** In every run, whatever interleaves, a call returns what the table held at some moment between the
      first time its version was current and its own end. In a guarded run, a call that began with no
      write in flight returns what the table held at some moment of the call itself. */
  lemma ResponsesAreFresh(actions: seq<Action>, states: seq<State>, i: nat, k: nat)
    requires IsRun(actions, states) && i < |states| && k < |states[i].responses|
    ensures var h, r := History(states[i].ledger, states[i].responses[k].call.user), states[i].responses[k];
            && HeldBetween(h, r.call.floor, r.finish, r.rows)
            && (Guarded(actions, states) && r.call.quiet ==> HeldBetween(h, r.call.start, r.finish, r.rows))
  {
    RunIsSound(actions, states, i);
    var r := states[i].responses[k];
    assert ResponseSound(states[i].ledger, r);
    if Guarded(actions, states) && r.call.quiet {
      RunIsQuietSound(actions, states, i);
      assert QuietCall(states[i].ledger, r.call);
      HeldSince(History(states[i].ledger, r.call.user), r.call.floor, r.call.start, r.finish, r.rows);
    }
  }

  // ---- Version writes that nobody overtakes ----

  /** A version about to be written is still the one that was read: nobody wrote it in between. */
  predicate NotOvertaken(s: State, a: Action)
    requires Enabled(s, a)
  {
    match a
    case ReadInit(_, u) => u !in s.ledger.version
    case BumpSet(b) => VersionOr0(s.ledger, s.bumps[b].user) == s.bumps[b].read
    case _ => true
  }

  ghost predicate Undisturbed(actions: seq<Action>, states: seq<State>)
    requires IsRun(actions, states)
  {
    forall i :: 0 <= i < |actions| ==> NotOvertaken(states[i], actions[i])
  }

  /** The current version is the highest on record. */
  ghost predicate Orderly(l: Ledger) {
    forall k :: k in l.floors ==> k.user in l.version && k.version <= l.version[k.user]
  }

  /** A write that is not overtaken makes a version current that never was. */
  lemma NotOvertakenStep(s: State, a: Action)
    requires Orderly(s.ledger) && Enabled(s, a) && NotOvertaken(s, a)
    ensures Guard(s, a) && Orderly(Step(s, a).ledger)
  {
  }

  lemma {:induction false} UndisturbedIsOrderly(actions: seq<Action>, states: seq<State>, i: nat)
    requires IsRun(actions, states) && Undisturbed(actions, states) && i < |states|
    ensures Orderly(states[i].ledger)
  {
    if i > 0 {
      UndisturbedIsOrderly(actions, states, i - 1);
      assert states[i - 1 + 1] == Step(states[i - 1], actions[i - 1]);
      NotOvertakenStep(states[i - 1], actions[i - 1]);
    }
  }

  /** A run whose increments and first versions are each written as if in one step passes the check. */
  lemma UndisturbedIsGuarded(actions: seq<Action>, states: seq<State>)
    requires IsRun(actions, states) && Undisturbed(actions, states)
    ensures Guarded(actions, states)
  {
    forall i | 0 <= i < |actions|
      ensures Guard(states[i], actions[i])
    {
      UndisturbedIsOrderly(actions, states, i);
      NotOvertakenStep(states[i], actions[i]);
    }
  }
}
