/** Exactly when the task-list cache is never stale, however list calls interleave with the writes. */
module CacheFreshness {
  import opened TaskListCache

  // ---- The same writes, other readers ----

  /** The steps that decide the table and the versions: task writes, increments, and first versions. */
  predicate IsWrite(a: Action) {
    a.Commit? || a.BumpGet? || a.BumpSet? || a.ReadInit?
  }

  function AddWrite(writes: seq<Action>, a: Action): seq<Action> {
    if IsWrite(a) then writes + [a] else writes
  }

  function Writes(actions: seq<Action>): seq<Action> {
    if actions == [] then [] else AddWrite(Writes(actions[..|actions| - 1]), actions[|actions| - 1])
  }

  lemma WritesAppend(actions: seq<Action>, a: Action)
    ensures Writes(actions + [a]) == AddWrite(Writes(actions), a)
  {
    assert (actions + [a])[..|actions|] == actions;
  }

  datatype Written = Written(ledger: Ledger, bumps: map<BumpId, Increment>)

  /** The effect of a write, from the tables and versions alone. */
  function Apply(w: Written, a: Action): Written {
    match a
    case Commit(u, rows) => w.(ledger := CommitRows(w.ledger, u, rows))
    case ReadInit(_, u) => w.(ledger := SetVersion(w.ledger, u, 1))
    case BumpGet(b, u) => w.(bumps := w.bumps[b := Increment(u, VersionOr0(w.ledger, u))])
    case BumpSet(b) =>
      if b in w.bumps && Pending(w.ledger, w.bumps[b].user) > 0 then
        Written(WriteBump(w.ledger, w.bumps[b]), w.bumps - {b})
      else w
    case _ => w
  }

  function Replay(writes: seq<Action>): Written {
    if writes == [] then Written(INIT.ledger, INIT.bumps)
    else Apply(Replay(writes[..|writes| - 1]), writes[|writes| - 1])
  }

  lemma ReplayAppend(writes: seq<Action>, a: Action)
    ensures Replay(writes + [a]) == Apply(Replay(writes), a)
  {
    assert (writes + [a])[..|writes|] == writes;
  }

  lemma ApplyStep(s: State, a: Action)
    requires Enabled(s, a)
    ensures var s' := Step(s, a);
            Written(s'.ledger, s'.bumps) ==
            if IsWrite(a) then Apply(Written(s.ledger, s.bumps), a) else Written(s.ledger, s.bumps)
  {
  }

  /** The writes of a run determine its tables and versions. */
  lemma {:induction false} RunReplays(actions: seq<Action>, states: seq<State>)
    requires IsRun(actions, states)
    ensures var s := states[|actions|]; Written(s.ledger, s.bumps) == Replay(Writes(actions))
  {
    if actions != [] {
      var k := |actions| - 1;
      PrefixIsRun(actions, states, k);
      RunReplays(actions[..k], states[..k + 1]);
      assert states[k + 1] == Step(states[k], actions[k]);
      ApplyStep(states[k], actions[k]);
      assert actions == actions[..k] + [actions[k]];
      WritesAppend(actions[..k], actions[k]);
      ReplayAppend(Writes(actions[..k]), actions[k]);
    }
  }

  lemma SameWrites(a: seq<Action>, s: seq<State>, b: seq<Action>, t: seq<State>)
    requires IsRun(a, s) && IsRun(b, t) && Writes(a) == Writes(b)
    ensures s[|a|].ledger == t[|b|].ledger && s[|a|].bumps == t[|b|].bumps
  {
    RunReplays(a, s);
    RunReplays(b, t);
  }

  /** However readers interleave with these writes, the cache ends up fresh for the user. */
  ghost predicate AlwaysFresh(actions: seq<Action>, u: UserId) {
    forall other, states :: IsRun(other, states) && Writes(other) == Writes(actions) ==> Fresh(states[|other|], u)
  }

  ghost predicate FreshAfter(actions: seq<Action>, k: nat, u: UserId)
    requires k <= |actions|
  {
    AlwaysFresh(actions[..k], u)
  }

  // ---- Planting one reader ----

  /** The shadow of a state: same tables and versions, an empty cache, and no calls but those that have
      found no version, beside the planted one. */
  ghost predicate Shadows(t: State, s: State, plant: CallId) {
    && t.ledger == s.ledger && t.bumps == s.bumps && t.entries == map[]
    && (forall c :: c in s.calls && s.calls[c].phase == Starting ==>
          c in t.calls && t.calls[c].phase == Starting && t.calls[c].user == s.calls[c].user)
    && (forall c :: c in t.calls && c != plant ==> c in s.calls && s.calls[c].phase == Starting)
    && plant !in s.calls
  }

  /** The planted call reads its version when the key first becomes current, and queries the table at
      position i of the history. */
  ghost predicate Planted(t: State, k: Key, i: nat, plant: CallId) {
    if k !in t.ledger.floors then plant !in t.calls
    else
      && plant in t.calls && t.calls[plant].user == k.user && t.calls[plant].version == k.version
      && (Now(t.ledger, k.user) < i ==> t.calls[plant].phase == Missed)
      && (Now(t.ledger, k.user) >= i ==> t.calls[plant].phase == Holding(History(t.ledger, k.user)[i]))
  }

  ghost predicate ShadowRun(actions: seq<Action>, s: State, k: Key, i: nat, plant: CallId,
                            other: seq<Action>, states: seq<State>)
  {
    && IsRun(other, states) && Writes(other) == Writes(actions)
    && Shadows(states[|other|], s, plant) && Planted(states[|other|], k, i, plant)
  }

  lemma ExtendShadow(other: seq<Action>, states: seq<State>, a: Action)
      returns (other': seq<Action>, states': seq<State>)
    requires IsRun(other, states) && Enabled(states[|other|], a)
    ensures IsRun(other', states') && states'[|other'|] == Step(states[|other|], a)
    ensures Writes(other') == AddWrite(Writes(other), a)
  {
    other', states' := Extend(other, states, a);
    WritesAppend(other, a);
  }

  /** The key is current for the first time: the planted call reads it, misses the empty cache, and
      queries at once if this is position i. */
  lemma PlantReader(other: seq<Action>, states: seq<State>, k: Key, i: nat, plant: CallId)
      returns (other': seq<Action>, states': seq<State>)
    requires IsRun(other, states)
    requires var t := states[|other|];
             && k in t.ledger.floors && k.user in t.ledger.version && t.ledger.version[k.user] == k.version
             && t.entries == map[] && plant !in t.calls && Now(t.ledger, k.user) <= i
    ensures IsRun(other', states') && Writes(other') == Writes(other)
    ensures Planted(states'[|other'|], k, i, plant)
    ensures var t, t' := states[|other|], states'[|other'|];
            && t'.ledger == t.ledger && t'.bumps == t.bumps && t'.entries == map[]
            && t'.calls - {plant} == t.calls
  {
    other', states' := ExtendShadow(other, states, ReadGet(plant, k.user));
    other', states' := ExtendShadow(other', states', Probe(plant));
    if Now(states[|other|].ledger, k.user) == i {
      other', states' := ExtendShadow(other', states', Query(plant));
    }
  }

  /** A version write, followed by the planted read if it put the key on record. */
  lemma AfterVersionWrite(before: Ledger, actions: seq<Action>, s: State, k: Key, i: nat, plant: CallId,
                          other: seq<Action>, states: seq<State>) returns (other': seq<Action>, states': seq<State>)
    requires IsRun(other, states) && Writes(other) == Writes(actions)
    requires var t := states[|other|];
             && Shadows(t, s, plant)
             && (k in before.floors || k !in t.ledger.floors ==> Planted(t, k, i, plant))
             && (k !in before.floors && k in t.ledger.floors ==>
                   && plant !in t.calls && k.user in t.ledger.version && t.ledger.version[k.user] == k.version
                   && Now(t.ledger, k.user) <= i)
    ensures ShadowRun(actions, s, k, i, plant, other', states')
  {
    if k !in before.floors && k in states[|other|].ledger.floors {
      other', states' := PlantReader(other, states, k, i, plant);
    } else {
      other', states' := other, states;
    }
  }

  lemma ShadowInit(actions: seq<Action>, s: State, c: CallId, u: UserId, k: Key, i: nat, plant: CallId,
                   other: seq<Action>, states: seq<State>) returns (other': seq<Action>, states': seq<State>)
    requires ShadowRun(actions, s, k, i, plant, other, states) && Enabled(s, ReadInit(c, u))
    requires var l := SetVersion(s.ledger, u, 1); k in l.floors ==> l.floors[k] <= i
    ensures ShadowRun(actions + [ReadInit(c, u)], Step(s, ReadInit(c, u)), k, i, plant, other', states')
  {
    other', states' := ExtendShadow(other, states, ReadInit(c, u));
    other', states' := ExtendShadow(other', states', Abort(c));
    WritesAppend(actions, ReadInit(c, u));
    other', states' := AfterVersionWrite(s.ledger, actions + [ReadInit(c, u)], Step(s, ReadInit(c, u)), k, i, plant,
                                         other', states');
  }

  lemma ShadowBump(actions: seq<Action>, s: State, b: BumpId, k: Key, i: nat, plant: CallId,
                   other: seq<Action>, states: seq<State>) returns (other': seq<Action>, states': seq<State>)
    requires ShadowRun(actions, s, k, i, plant, other, states) && Enabled(s, BumpSet(b))
    requires var l := WriteBump(s.ledger, s.bumps[b]); k in l.floors ==> l.floors[k] <= i
    ensures ShadowRun(actions + [BumpSet(b)], Step(s, BumpSet(b)), k, i, plant, other', states')
  {
    other', states' := ExtendShadow(other, states, BumpSet(b));
    WritesAppend(actions, BumpSet(b));
    other', states' := AfterVersionWrite(s.ledger, actions + [BumpSet(b)], Step(s, BumpSet(b)), k, i, plant,
                                         other', states');
  }

  lemma ShadowCommit(actions: seq<Action>, s: State, u: UserId, rows: Rows, k: Key, i: nat, plant: CallId,
                     other: seq<Action>, states: seq<State>) returns (other': seq<Action>, states': seq<State>)
    requires ShadowRun(actions, s, k, i, plant, other, states)
    ensures ShadowRun(actions + [Commit(u, rows)], Step(s, Commit(u, rows)), k, i, plant, other', states')
  {
    var t := states[|other|];
    other', states' := ExtendShadow(other, states, Commit(u, rows));
    WritesAppend(actions, Commit(u, rows));
    var t' := states'[|other'|];
    assert u == k.user ==> History(t'.ledger, u) == History(t.ledger, u) + [rows];
    assert u != k.user ==> History(t'.ledger, k.user) == History(t.ledger, k.user);
    if k in t.ledger.floors && Now(t.ledger, k.user) < i == Now(t'.ledger, k.user) {
      other', states' := ExtendShadow(other', states', Query(plant));
    }
  }

  /** A step that neither touches tables and versions nor a call without a version leaves the shadow. */
  lemma SameShadow(t: State, s: State, a: Action, plant: CallId)
    requires Shadows(t, s, plant) && Enabled(s, a)
    requires a.Probe? || a.Query? || a.Store? || a.Expire?
    ensures Shadows(t, Step(s, a), plant)
  {
    var s' := Step(s, a);
    assert s'.ledger == s.ledger && s'.bumps == s.bumps;
    forall c ensures c in s'.calls && s'.calls[c].phase == Starting <==> c in s.calls && s.calls[c].phase == Starting {
    }
  }

  lemma ShadowStays(actions: seq<Action>, s: State, a: Action, k: Key, i: nat, plant: CallId,
                    other: seq<Action>, states: seq<State>) returns (other': seq<Action>, states': seq<State>)
    requires ShadowRun(actions, s, k, i, plant, other, states) && Enabled(s, a)
    requires a.Probe? || a.Query? || a.Store? || a.Expire? || (a.Abort? && s.calls[a.call].phase != Starting)
             || (a.ReadGet? && a.call != plant && a.user in s.ledger.version)
    ensures ShadowRun(actions + [a], Step(s, a), k, i, plant, other', states')
  {
    other', states' := other, states;
    WritesAppend(actions, a);
    if !a.ReadGet? && !a.Abort? {
      SameShadow(states[|other|], s, a, plant);
    }
  }

  lemma ShadowFollows(actions: seq<Action>, s: State, a: Action, k: Key, i: nat, plant: CallId,
                      other: seq<Action>, states: seq<State>) returns (other': seq<Action>, states': seq<State>)
    requires ShadowRun(actions, s, k, i, plant, other, states) && Enabled(s, a)
    requires a.BumpGet? || (a.Abort? && s.calls[a.call].phase == Starting)
             || (a.ReadGet? && a.call != plant && a.user !in s.ledger.version)
    ensures ShadowRun(actions + [a], Step(s, a), k, i, plant, other', states')
  {
    other', states' := ExtendShadow(other, states, a);
    WritesAppend(actions, a);
  }

  lemma ShadowStep(actions: seq<Action>, s: State, a: Action, k: Key, i: nat, plant: CallId,
                   other: seq<Action>, states: seq<State>) returns (other': seq<Action>, states': seq<State>)
    requires ShadowRun(actions, s, k, i, plant, other, states) && Enabled(s, a)
    requires a.ReadGet? ==> a.call != plant
    requires var l := Step(s, a).ledger; k in l.floors ==> l.floors[k] <= i
    ensures ShadowRun(actions + [a], Step(s, a), k, i, plant, other', states')
  {
    match a
    case ReadInit(c, u) => other', states' := ShadowInit(actions, s, c, u, k, i, plant, other, states);
    case BumpSet(b) => other', states' := ShadowBump(actions, s, b, k, i, plant, other, states);
    case Commit(u, rows) => other', states' := ShadowCommit(actions, s, u, rows, k, i, plant, other, states);
    case BumpGet(_, _) => other', states' := ShadowFollows(actions, s, a, k, i, plant, other, states);
    case ReadGet(_, u) =>
      if u in s.ledger.version {
        other', states' := ShadowStays(actions, s, a, k, i, plant, other, states);
      } else {
        other', states' := ShadowFollows(actions, s, a, k, i, plant, other, states);
      }
    case Abort(c) =>
      if s.calls[c].phase == Starting {
        other', states' := ShadowFollows(actions, s, a, k, i, plant, other, states);
      } else {
        other', states' := ShadowStays(actions, s, a, k, i, plant, other, states);
      }
    case _ => other', states' := ShadowStays(actions, s, a, k, i, plant, other, states);
  }

  lemma FloorsStay(s: State, a: Action, k: Key)
    requires Recorded(s.ledger) && Enabled(s, a) && k in s.ledger.floors
    ensures k in Step(s, a).ledger.floors && Step(s, a).ledger.floors[k] == s.ledger.floors[k]
  {
    StepGrows(s, a);
  }

  /** Beside the writes of any run a call can be planted that ends up holding, under any key on record,
      the rows of any position of the history since that key was first current. */
  lemma {:induction false} Plant(actions: seq<Action>, states: seq<State>, k: Key, i: nat, plant: CallId)
      returns (other: seq<Action>, states': seq<State>)
    requires IsRun(actions, states)
    requires forall j :: 0 <= j < |actions| && actions[j].ReadGet? ==> actions[j].call != plant
    requires var l := states[|actions|].ledger; k in l.floors ==> l.floors[k] <= i
    ensures ShadowRun(actions, states[|actions|], k, i, plant, other, states')
  {
    if actions == [] {
      other, states' := [], [INIT];
    } else {
      var n := |actions| - 1;
      PrefixIsRun(actions, states, n);
      RunIsSound(actions, states, n);
      assert states[n + 1] == Step(states[n], actions[n]);
      if k in states[n].ledger.floors {
        FloorsStay(states[n], actions[n], k);
      }
      other, states' := Plant(actions[..n], states[..n + 1], k, i, plant);
      assert actions == actions[..n] + [actions[n]];
      other, states' := ShadowStep(actions[..n], states[n], actions[n], k, i, plant, other, states');
    }
  }

  lemma {:induction false} UnusedCall(actions: seq<Action>) returns (c: CallId)
    ensures forall j :: 0 <= j < |actions| && actions[j].ReadGet? ==> actions[j].call < c
  {
    if actions == [] {
      c := 0;
    } else {
      var n := |actions| - 1;
      c := UnusedCall(actions[..n]);
      if actions[n].ReadGet? && actions[n].call >= c {
        c := actions[n].call + 1;
      }
      forall j | 0 <= j < |actions| && actions[j].ReadGet?
        ensures actions[j].call < c
      {
        assert j < n ==> actions[..n][j] == actions[j];
      }
    }
  }

  /** Where a settled user's version is not steady, some reader leaves a stale entry. */
  lemma UnsteadyIsStale(actions: seq<Action>, states: seq<State>, u: UserId)
    requires IsRun(actions, states)
    requires Pending(states[|actions|].ledger, u) == 0 && !Steady(states[|actions|].ledger, u)
    ensures !AlwaysFresh(actions, u)
  {
    var l := states[|actions|].ledger;
    var k := Key(u, l.version[u]);
    var i: nat :| l.floors[k] <= i <= Now(l, u) && History(l, u)[i] != Current(l, u);
    var plant := UnusedCall(actions);
    var other, states' := Plant(actions, states, k, i, plant);
    other, states' := ExtendShadow(other, states', Store(plant));
    assert !Fresh(states'[|other|], u);
  }

  lemma SteadyIsAlwaysFresh(actions: seq<Action>, states: seq<State>, u: UserId)
    requires IsRun(actions, states)
    requires Pending(states[|actions|].ledger, u) == 0 ==> Steady(states[|actions|].ledger, u)
    ensures AlwaysFresh(actions, u)
  {
    forall other, states' | IsRun(other, states') && Writes(other) == Writes(actions)
      ensures Fresh(states'[|other|], u)
    {
      SameWrites(actions, states, other, states');
      RunIsSound(other, states', |other|);
      SteadyIsFresh(states'[|other|], u);
    }
  }

  // ---- The exact condition ----

  /** For a user without a write in flight: the cache is fresh however readers interleave with the writes
      of the run if and only if no write has changed the rows since the user's version was first
      current. */
  lemma FreshIffSteady(actions: seq<Action>, states: seq<State>, u: UserId)
    requires IsRun(actions, states) && Pending(states[|actions|].ledger, u) == 0
    ensures AlwaysFresh(actions, u) <==> Steady(states[|actions|].ledger, u)
  {
    if Steady(states[|actions|].ledger, u) {
      SteadyIsAlwaysFresh(actions, states, u);
    } else {
      UnsteadyIsStale(actions, states, u);
    }
  }

  lemma FirstUnguarded(actions: seq<Action>, states: seq<State>) returns (i: nat)
    requires IsRun(actions, states) && !Guarded(actions, states)
    ensures i < |actions| && !Guard(states[i], actions[i])
    ensures forall j :: 0 <= j < i ==> Guard(states[j], actions[j])
  {
    var bad :| 0 <= bad < |actions| && !Guard(states[bad], actions[bad]);
    i := 0;
    while Guard(states[i], actions[i])
      invariant i <= bad
      invariant forall j :: 0 <= j < i ==> Guard(states[j], actions[j])
      decreases bad - i
    {
      i := i + 1;
    }
  }

  lemma PrefixIsGuarded(actions: seq<Action>, states: seq<State>, i: nat)
    requires IsRun(actions, states) && i <= |actions| && IsRun(actions[..i], states[..i + 1])
    requires forall j :: 0 <= j < i ==> Guard(states[j], actions[j])
    ensures Guarded(actions[..i], states[..i + 1])
  {
    forall j | 0 <= j < i ensures Guard(states[..i + 1][j], actions[..i][j]) {
      assert states[..i + 1][j] == states[j] && actions[..i][j] == actions[j];
    }
  }

  lemma UnguardedIsUnsteady(s: State, a: Action) returns (u: UserId)
    requires Recorded(s.ledger) && Calm(s.ledger) && Enabled(s, a) && !Guard(s, a)
    ensures Pending(Step(s, a).ledger, u) == 0 && !Steady(Step(s, a).ledger, u)
  {
    CalmIff(s, a);
    u :| Pending(Step(s, a).ledger, u) == 0 && !Steady(Step(s, a).ledger, u);
  }

  lemma BreaksCalm(actions: seq<Action>, states: seq<State>, i: nat, k: nat) returns (u: UserId)
    requires IsRun(actions, states) && i < |actions| && k == i + 1
    requires !Guard(states[i], actions[i]) && forall j :: 0 <= j < i ==> Guard(states[j], actions[j])
    ensures !FreshAfter(actions, k, u)
  {
    PrefixIsRun(actions, states, i);
    PrefixIsGuarded(actions, states, i);
    GuardedIsCalm(actions[..i], states[..i + 1], i);
    RunIsSound(actions, states, i);
    assert states[i + 1] == Step(states[i], actions[i]);
    u := UnguardedIsUnsteady(states[i], actions[i]);
    PrefixIsRun(actions, states, k);
    UnsteadyIsStale(actions[..k], states[..k + 1], u);
  }

  /** The cache is fresh for every user at every moment, however readers interleave with the writes of
      the run, if and only if every version write passes the check: one that leaves its user without a
      write in flight makes no version current again after a write has changed the rows it stood for. */
  lemma CacheNeverStaleIff(actions: seq<Action>, states: seq<State>)
    requires IsRun(actions, states)
    ensures (forall k: nat, u :: k <= |actions| ==> FreshAfter(actions, k, u)) <==> Guarded(actions, states)
  {
    if Guarded(actions, states) {
      forall k: nat, u | k <= |actions|
        ensures FreshAfter(actions, k, u)
      {
        GuardedIsCalm(actions, states, k);
        PrefixIsRun(actions, states, k);
        SteadyIsAlwaysFresh(actions[..k], states[..k + 1], u);
      }
    } else {
      var i := FirstUnguarded(actions, states);
      var u := BreaksCalm(actions, states, i, i + 1);
    }
  }

  // ---- Two runs ----

  /** Two readers have found no version. */
  lemma TwoReadersStart() returns (actions: seq<Action>, states: seq<State>)
    ensures IsRun(actions, states)
    ensures var s := states[|actions|];
            && s.ledger == INIT.ledger && s.bumps == map[] && s.entries == map[]
            && s.calls == map[1 := NewCall(s.ledger, 0), 2 := NewCall(s.ledger, 0)]
  {
    actions, states := [], [INIT];
    actions, states := Extend(actions, states, ReadGet(1, 0));
    actions, states := Extend(actions, states, ReadGet(2, 0));
  }

  /** The start of the counterexample below: reader 1 has found no version, reader 2 has cached. */
  lemma OneReaderWaits() returns (actions: seq<Action>, states: seq<State>)
    ensures IsRun(actions, states)
    ensures var s := states[|actions|];
            && s.ledger.version == map[0 := 1] && History(s.ledger, 0) == [[]] && Pending(s.ledger, 0) == 0
            && s.entries == map[Key(0, 1) := []] && s.bumps == map[]
            && 1 in s.calls && s.calls[1].user == 0 && s.calls[1].phase == Starting
  {
    actions, states := TwoReadersStart();
    actions, states := Extend(actions, states, ReadInit(2, 0));
    actions, states := Extend(actions, states, Probe(2));
    actions, states := Extend(actions, states, Query(2));
    actions, states := Extend(actions, states, Store(2));
  }

  /** Then a task is added and the version becomes 2. */
  lemma TaskIsAdded(actions0: seq<Action>, states0: seq<State>, row: string)
      returns (actions: seq<Action>, states: seq<State>)
    requires IsRun(actions0, states0)
    requires var s := states0[|actions0|];
             && s.ledger.version == map[0 := 1] && History(s.ledger, 0) == [[]] && Pending(s.ledger, 0) == 0
             && s.bumps == map[]
    ensures IsRun(actions, states)
    ensures var s, s0 := states[|actions|], states0[|actions0|];
            && s.ledger.version == map[0 := 2] && History(s.ledger, 0) == [[], [row]] && Pending(s.ledger, 0) == 0
            && s.calls == s0.calls && s.entries == s0.entries
  {
    actions, states := Extend(actions0, states0, Commit(0, [row]));
    actions, states := Extend(actions, states, BumpGet(3, 0));
    actions, states := Extend(actions, states, BumpSet(3));
  }

  /** A late write can bring a stale entry back. A first reader finds no version; a second one sets
      version 1 and caches the empty list; a task is added and the version becomes 2; then the first
      reader sets version 1. */
  lemma LateFirstVersionCounterexample(row: string) returns (actions: seq<Action>, states: seq<State>)
    ensures IsRun(actions, states) && !Guarded(actions, states) && !Fresh(states[|actions|], 0)
  {
    actions, states := OneReaderWaits();
    actions, states := TaskIsAdded(actions, states, row);
    actions, states := Extend(actions, states, ReadInit(1, 0));
    if Guarded(actions, states) {
      CacheNeverStale(actions, states, |actions|, 0);
    }
  }

  lemma ExtendGuarded(actions: seq<Action>, states: seq<State>, a: Action)
      returns (longer: seq<Action>, states': seq<State>)
    requires IsRun(actions, states) && Guarded(actions, states)
    requires Enabled(states[|actions|], a) && Guard(states[|actions|], a)
    ensures longer == actions + [a] && IsRun(longer, states') && Guarded(longer, states')
    ensures states'[|actions|] == states[|actions|] && states'[|longer|] == Step(states[|actions|], a)
  {
    longer, states' := Extend(actions, states, a);
    forall i | 0 <= i < |longer| ensures Guard(states'[i], longer[i]) {
      assert i < |actions| ==> states'[i] == states[i] && longer[i] == actions[i];
    }
  }

  /** Two tasks are added and both increments have read a missing version. */
  lemma BothHaveRead(first: string, second: string) returns (actions: seq<Action>, states: seq<State>)
    ensures IsRun(actions, states) && Guarded(actions, states)
    ensures var s := states[|actions|];
            && s.ledger.version == map[] && s.ledger.floors == map[] && Pending(s.ledger, 0) == 2
            && History(s.ledger, 0) == [[], [first], [first, second]]
            && s.bumps == map[1 := Increment(0, 0), 2 := Increment(0, 0)]
  {
    actions, states := [], [INIT];
    actions, states := ExtendGuarded(actions, states, Commit(0, [first]));
    actions, states := ExtendGuarded(actions, states, Commit(0, [first, second]));
    actions, states := ExtendGuarded(actions, states, BumpGet(1, 0));
    actions, states := ExtendGuarded(actions, states, BumpGet(2, 0));
  }

  /** Losing an update does no harm: two increments that read the same version write the same version,
      the first of them with both tasks already visible. */
  lemma LostUpdateIsHarmless(first: string, second: string) returns (actions: seq<Action>, states: seq<State>)
    ensures IsRun(actions, states) && Guarded(actions, states) && !Undisturbed(actions, states)
    ensures var l := states[|actions|].ledger;
            l.version == map[0 := 1] && Pending(l, 0) == 0 && Current(l, 0) == [first, second]
  {
    actions, states := BothHaveRead(first, second);
    actions, states := ExtendGuarded(actions, states, BumpSet(1));
    var n := |actions|;
    actions, states := ExtendGuarded(actions, states, BumpSet(2));
    assert actions[n] == BumpSet(2) && !NotOvertaken(states[n], BumpSet(2));
  }
}
