/** The code of the task-list cache: one method per cache or database access, tied to the steps of the
    machine, and the source's functions run without interruption. */
module TaskListServer {
  import opened Wrappers
  import opened TaskListCache

  ghost predicate RowsMatch(rows: map<UserId, Rows>, l: Ledger) {
    rows.Keys == l.history.Keys && forall u :: u in rows ==> rows[u] == Current(l, u)
  }

  lemma RowsStillMatch(rows: map<UserId, Rows>, l: Ledger, l': Ledger)
    requires RowsMatch(rows, l) && l'.history == l.history
    ensures RowsMatch(rows, l')
  {
    forall u | u in rows ensures rows[u] == Current(l', u) {
      assert History(l', u) == History(l, u);
    }
  }

  lemma CommitMatches(rows: map<UserId, Rows>, l: Ledger, u: UserId, now: Rows)
    requires RowsMatch(rows, l)
    ensures RowsMatch(rows[u := now], CommitRows(l, u, now))
  {
    var l' := CommitRows(l, u, now);
    forall x | x in rows[u := now] ensures rows[u := now][x] == Current(l', x) {
      if x != u {
        assert History(l', x) == History(l, x);
      } else {
        assert History(l', u) == History(l, u) + [now];
      }
    }
  }

  /** The call is at the given phase, under the given key. */
  ghost predicate InCall(s: State, c: CallId, u: UserId, v: Version, phase: Phase) {
    c in s.calls && s.calls[c].user == u && s.calls[c].version == v && s.calls[c].phase == phase
  }

  /** Sound, with no version written out of turn so far, and fresh for every settled user. */
  ghost predicate InOrder(s: State) {
    Sound(s) && Orderly(s.ledger) && Calm(s.ledger)
  }

  lemma InOrderStep(s: State, a: Action)
    requires InOrder(s) && Enabled(s, a) && NotOvertaken(s, a)
    ensures InOrder(Step(s, a))
  {
    NotOvertakenStep(s, a);
    StepKeepsSound(s, a);
    CalmIff(s, a);
  }

  class Server {
    /** The task table, per user. */
    var rows: map<UserId, Rows>
    /** The Django cache: version keys, which never expire, and list entries. */
    var version: map<UserId, Version>
    var entries: map<Key, Rows>
    /** The machine state these fields are part of; a call's key and data are locals of its view, and
        the version an increment has read is a local of the signal. */
    ghost var state: State

    ghost predicate Valid()
      reads this
    {
      version == state.ledger.version && entries == state.entries && RowsMatch(rows, state.ledger)
    }

    constructor ()
      ensures Valid() && state == INIT
    {
      rows, version, entries, state := map[], map[], map[], INIT;
    }

    /** `cache.get` of the version, by a list call. */
    method LookUpVersion(ghost c: CallId, u: UserId) returns (found: Option<Version>)
      requires Valid() && Enabled(state, ReadGet(c, u))
      modifies this`state
      ensures Valid() && state == Step(old(state), ReadGet(c, u))
      ensures found == if u in version then Some(version[u]) else None
      ensures if found.Some? then InCall(state, c, u, found.value, Probing) else InCall(state, c, u, 0, Starting)
    {
      state := Step(state, ReadGet(c, u));
      found := if u in version then Some(version[u]) else None;
    }

    /** `cache.set` of a version found missing. */
    method StoreFirstVersion(ghost c: CallId, u: UserId) returns (v: Version)
      requires Valid() && InCall(state, c, u, 0, Starting)
      modifies this`version, this`state
      ensures Valid() && state == Step(old(state), ReadInit(c, u))
      ensures v == 1 && InCall(state, c, u, v, Probing)
    {
      RowsStillMatch(rows, state.ledger, SetVersion(state.ledger, u, 1));
      state := Step(state, ReadInit(c, u));
      v := 1;
      version := version[u := v];
    }

    /** The two run without interruption. */
    method GetUserCacheVersion(ghost c: CallId, u: UserId) returns (v: Version)
      requires Valid() && InOrder(state) && Enabled(state, ReadGet(c, u))
      modifies this`version, this`state
      ensures Valid() && InOrder(state) && InCall(state, c, u, v, Probing)
      ensures version == if u in old(version) then old(version) else old(version)[u := 1]
      ensures v == version[u] && entries == old(entries)
      ensures Current(state.ledger, u) == Current(old(state).ledger, u)
      ensures Pending(state.ledger, u) == Pending(old(state).ledger, u)
    {
      InOrderStep(state, ReadGet(c, u));
      var found := LookUpVersion(c, u);
      if found.Some? {
        return found.value;
      }
      InOrderStep(state, ReadInit(c, u));
      v := StoreFirstVersion(c, u);
    }

    /** `cache.get` of the version, by an increment. */
    method ReadForIncrement(ghost b: BumpId, u: UserId) returns (read: Version)
      requires Valid() && Enabled(state, BumpGet(b, u))
      modifies this`state
      ensures Valid() && state == Step(old(state), BumpGet(b, u))
      ensures b in state.bumps && state.bumps[b] == Increment(u, read)
    {
      state := Step(state, BumpGet(b, u));
      read := if u in version then version[u] else 0;
    }

    /** `cache.set` of the incremented version. */
    method WriteIncremented(ghost b: BumpId, u: UserId, read: Version) returns (v: Version)
      requires Valid() && Enabled(state, BumpSet(b)) && state.bumps[b] == Increment(u, read)
      modifies this`version, this`state
      ensures Valid() && state == Step(old(state), BumpSet(b))
      ensures v == read + 1 && version == old(version)[u := v]
    {
      v := read + 1;
      RowsStillMatch(rows, state.ledger, WriteBump(state.ledger, state.bumps[b]));
      state := Step(state, BumpSet(b));
      version := version[u := v];
    }

    /** The two run without interruption: then the write is not overtaken. */
    method IncrementUserCacheVersion(ghost b: BumpId, u: UserId) returns (v: Version)
      requires Valid() && InOrder(state) && Enabled(state, BumpGet(b, u))
      modifies this`version, this`state
      ensures Valid() && InOrder(state)
      ensures v == (if u in old(version) then old(version)[u] else 0) + 1 && version == old(version)[u := v]
      ensures Pending(state.ledger, u) == Pending(old(state).ledger, u) - 1
    {
      InOrderStep(state, BumpGet(b, u));
      var read := ReadForIncrement(b, u);
      InOrderStep(state, BumpSet(b));
      v := WriteIncremented(b, u, read);
    }

    /** A write to the user's tasks becomes visible. */
    method SaveTask(u: UserId, now: Rows)
      requires Valid()
      modifies this`rows, this`state
      ensures Valid() && state == Step(old(state), Commit(u, now))
      ensures rows == old(rows)[u := now]
    {
      CommitMatches(rows, state.ledger, u, now);
      state := Step(state, Commit(u, now));
      rows := rows[u := now];
    }

    /** The signal after the write. */
    method IncrementTaskCacheVersion(ghost b: BumpId, u: UserId)
      requires Valid() && InOrder(state) && Enabled(state, BumpGet(b, u))
      modifies this`version, this`state
      ensures Valid() && InOrder(state)
      ensures version == old(version)[u := (if u in old(version) then old(version)[u] else 0) + 1]
      ensures Pending(state.ledger, u) == Pending(old(state).ledger, u) - 1
    {
      var _ := IncrementUserCacheVersion(b, u);
    }

    method ProbeCache(ghost c: CallId, u: UserId, v: Version) returns (cached: Option<Rows>)
      requires Valid() && InCall(state, c, u, v, Probing)
      modifies this`state
      ensures Valid() && state == Step(old(state), Probe(c))
      ensures cached == if Key(u, v) in entries then Some(entries[Key(u, v)]) else None
      ensures cached.None? ==> InCall(state, c, u, v, Missed)
    {
      state := Step(state, Probe(c));
      cached := if Key(u, v) in entries then Some(entries[Key(u, v)]) else None;
    }

    method QueryTasks(ghost c: CallId, u: UserId, ghost v: Version) returns (data: Rows)
      requires Valid() && InCall(state, c, u, v, Missed)
      modifies this`state
      ensures Valid() && state == Step(old(state), Query(c))
      ensures data == Current(state.ledger, u) && InCall(state, c, u, v, Holding(data))
    {
      data := if u in rows then rows[u] else [];
      state := Step(state, Query(c));
    }

    method StoreEntry(ghost c: CallId, u: UserId, v: Version, data: Rows)
      requires Valid() && InCall(state, c, u, v, Holding(data))
      modifies this`entries, this`state
      ensures Valid() && state == Step(old(state), Store(c))
      ensures entries == old(entries)[Key(u, v) := data]
    {
      state := Step(state, Store(c));
      entries := entries[Key(u, v) := data];
    }

    /** An entry reaches its timeout, or is evicted. */
    method ExpireEntry(u: UserId, v: Version)
      requires Valid()
      modifies this`entries, this`state
      ensures Valid() && state == Step(old(state), Expire(u, v))
      ensures entries == old(entries) - {Key(u, v)}
    {
      state := Step(state, Expire(u, v));
      entries := entries - {Key(u, v)};
    }

    /** The whole list view, run without interruption: with no write in flight it returns the
        user's current tasks, cached or not. */
    method List(ghost c: CallId, u: UserId) returns (data: Rows)
      requires Valid() && InOrder(state) && Enabled(state, ReadGet(c, u))
      modifies this`version, this`entries, this`state
      ensures Valid() && InOrder(state)
      ensures Pending(old(state).ledger, u) == 0 ==> data == Current(old(state).ledger, u)
      ensures version == if u in old(version) then old(version) else old(version)[u := 1]
      ensures var key := Key(u, version[u]);
              if key in old(entries) then data == old(entries)[key] && entries == old(entries)
              else data == Current(old(state).ledger, u) && entries == old(entries)[key := data]
    {
      var v := GetUserCacheVersion(c, u);
      SteadyIsFresh(state, u);
      InOrderStep(state, Probe(c));
      var cached := ProbeCache(c, u, v);
      if cached.Some? {
        return cached.value;
      }
      InOrderStep(state, Query(c));
      data := QueryTasks(c, u, v);
      InOrderStep(state, Store(c));
      StoreEntry(c, u, v, data);
    }
  }
}
