/** Index updates running at the same time. Each takes the mutex of its index key, reads, writes
    and releases; steps of different calls interleave freely. The calls that report success take
    effect one after another, in an order that respects which finished before which began. */
module Locking {
  import opened Options
  import opened SemVer
  import opened VersionIndex
  import opened StableSort
  import opened Precedence
  import opened Registry
  import opened PublicPaths
  import opened Publication
  import opened Stores

  /** One addVersionToIndex or removeVersionFromIndex call. */
  datatype Call = Call(key: string, version: string, add: bool)

  function Effect(c: Call, versions: seq<string>): seq<string> {
    if c.add then AddVersion(versions, c.version) else Without(versions, c.version)
  }

  /** Where a call is: before getLock, waiting for its mutex, holding it, having read, and with the
      result it reports, before and after releasing. */
  datatype Stage =
    | Start
    | Waiting(mutex: nat)
    | Holding(mutex: nat)
    | HasRead(mutex: nat, versions: seq<string>)
    | Finished(mutex: nat, ok: bool)
    | Done(ok: bool)

  /** The lock table hands out mutexes 0, 1, 2, ...; `owner` says which call holds one. `log` is
      the calls that have succeeded, in that order. */
  datatype State = State(
    index: map<string, seq<string>>,
    locks: map<string, nat>,
    created: nat,
    owner: map<nat, nat>,
    stages: seq<Stage>,
    log: seq<nat>)

  function Index(s: State, key: string): seq<string> { if key in s.index then s.index[key] else [] }

  function MutexOf(stage: Stage): Option<nat> {
    match stage
    case Holding(m) => Some(m)
    case HasRead(m, _) => Some(m)
    case Finished(m, _) => Some(m)
    case _ => None
  }

  function Initial(index: map<string, seq<string>>, n: nat): State {
    State(index, map[], 0, map[], seq(n, _ => Start), [])
  }

  /** An addition returns early, and reports success, when the version is already there. */
  predicate NothingToDo(c: Call, versions: seq<string>) { c.add && c.version in versions }

  /** One step of call `t`. getLock runs under the store's own mutex, so it is a single step. */
  ghost predicate Step(calls: seq<Call>, s: State, s': State, t: nat)
    requires t < |calls| == |s.stages|
  {
    var key := calls[t].key;
    match s.stages[t]
    case Start =>
      if key in s.locks then s' == s.(stages := s.stages[t := Waiting(s.locks[key])])
      else s' == s.(locks := s.locks[key := s.created], created := s.created + 1,
                    stages := s.stages[t := Waiting(s.created)])
    case Waiting(m) =>
      m !in s.owner && s' == s.(owner := s.owner[m := t], stages := s.stages[t := Holding(m)])
    case Holding(m) =>
      || s' == s.(stages := s.stages[t := Finished(m, false)])
      || s' == s.(stages := s.stages[t := HasRead(m, SortVersions(Index(s, key)))])
    case HasRead(m, versions) =>
      || s' == s.(stages := s.stages[t := Finished(m, false)])
      || s' == s.(index := if NothingToDo(calls[t], versions) then s.index
                           else s.index[key := Effect(calls[t], versions)],
                  stages := s.stages[t := Finished(m, true)], log := s.log + [t])
    case Finished(m, ok) =>
      s' == s.(owner := s.owner - {m}, stages := s.stages[t := Done(ok)])
    case Done(_) => false
  }

  predicate InRange(calls: seq<Call>, log: seq<nat>) { forall i :: 0 <= i < |log| ==> log[i] < |calls| }

  /** The calls of a log run one after another on one index. */
  function Replay(calls: seq<Call>, log: seq<nat>, key: string, versions: seq<string>): seq<string>
    requires InRange(calls, log)
  {
    if log == [] then versions
    else
      var before := Replay(calls, log[..|log| - 1], key, versions);
      var c := calls[log[|log| - 1]];
      if c.key == key then Effect(c, before) else before
  }

  ghost predicate LocksOk(calls: seq<Call>, s: State) {
    && |s.stages| == |calls|
    && (forall key :: key in s.locks ==> s.locks[key] < s.created)
    && (forall a, b :: a in s.locks && b in s.locks && s.locks[a] == s.locks[b] ==> a == b)
    && (forall t :: 0 <= t < |calls| && s.stages[t].Waiting? ==>
        calls[t].key in s.locks && s.locks[calls[t].key] == s.stages[t].mutex)
    && (forall t :: 0 <= t < |calls| && MutexOf(s.stages[t]).Some? ==>
          && calls[t].key in s.locks && s.locks[calls[t].key] == MutexOf(s.stages[t]).value
          && MutexOf(s.stages[t]).value in s.owner && s.owner[MutexOf(s.stages[t]).value] == t)
  }

  /** Every mutex that is taken is held by the call it is given to. */
  ghost predicate OwnersOk(calls: seq<Call>, s: State) {
    && |s.stages| == |calls|
    && forall m :: m in s.owner ==> s.owner[m] < |calls| && MutexOf(s.stages[s.owner[m]]) == Some(m)
  }

  /** The call reports success. */
  predicate Succeeded(stage: Stage) { (stage.Finished? || stage.Done?) && stage.ok }

  ghost predicate LogOk(calls: seq<Call>, s: State) {
    && |s.stages| == |calls|
    && InRange(calls, s.log)
    && (forall t :: 0 <= t < |calls| ==> (t in s.log <==> Succeeded(s.stages[t])))
    && (forall i, j :: 0 <= i < j < |s.log| ==> s.log[i] != s.log[j])
  }

  /** What a call has read is still what the index holds when it writes. */
  ghost predicate ReadsCurrent(calls: seq<Call>, s: State)
    requires |s.stages| == |calls|
  {
    forall t :: 0 <= t < |calls| && s.stages[t].HasRead? ==> s.stages[t].versions == Index(s, calls[t].key)
  }

  ghost predicate Invariant(calls: seq<Call>, start: map<string, seq<string>>, s: State) {
    && LocksOk(calls, s) && OwnersOk(calls, s) && LogOk(calls, s) && ReadsCurrent(calls, s)
    && (forall key :: IndexOk(Index(s, key)))
    && (forall key :: Index(s, key) == Replay(calls, s.log, key, if key in start then start[key] else []))
  }

  /** Well-kept indexes, and versions the routes let through. */
  ghost predicate Given(calls: seq<Call>, start: map<string, seq<string>>) {
    && (forall key :: key in start ==> IndexOk(start[key]))
    && (forall t :: 0 <= t < |calls| ==> ValidVersion(calls[t].version))
  }

  lemma InitialInvariant(calls: seq<Call>, start: map<string, seq<string>>)
    requires Given(calls, start)
    ensures Invariant(calls, start, Initial(start, |calls|))
  {
  }

  lemma EffectKeepsIndex(c: Call, versions: seq<string>)
    requires IndexOk(versions) && ValidVersion(c.version)
    ensures IndexOk(Effect(c, versions))
  {
    hide IndexOk, ValidVersion;
    if c.add { AddKeepsIndex(versions, c.version); } else { RemoveKeepsIndex(versions, c.version); }
  }

  lemma NothingChanges(c: Call, versions: seq<string>)
    requires NothingToDo(c, versions)
    ensures Effect(c, versions) == versions
  {
  }

  lemma OneInside(calls: seq<Call>, s: State, t: nat, u: nat)
    requires LocksOk(calls, s) && t < |calls| && u < |calls| && calls[t].key == calls[u].key
    requires MutexOf(s.stages[t]).Some? && MutexOf(s.stages[u]).Some?
    ensures t == u
  {
  }

  lemma StepKeepsLocks(calls: seq<Call>, s: State, s': State, t: nat)
    requires LocksOk(calls, s) && t < |calls| && Step(calls, s, s', t)
    ensures LocksOk(calls, s')
  {
    hide Effect;
    forall u | 0 <= u < |calls| && MutexOf(s'.stages[u]).Some?
      ensures calls[u].key in s'.locks && s'.locks[calls[u].key] == MutexOf(s'.stages[u]).value
      ensures MutexOf(s'.stages[u]).value in s'.owner && s'.owner[MutexOf(s'.stages[u]).value] == u
    {
      if u != t { assert MutexOf(s.stages[u]).Some?; }
    }
  }

  /** A step keeps, takes or gives back the mutex of its call. */
  lemma OwnersAfter(calls: seq<Call>, s: State, s': State, t: nat)
    requires OwnersOk(calls, s) && t < |calls| == |s'.stages|
    requires forall u :: 0 <= u < |calls| && u != t ==> s'.stages[u] == s.stages[u]
    requires var m, n := MutexOf(s.stages[t]), MutexOf(s'.stages[t]);
             || (m == n && s'.owner == s.owner)
             || (m.None? && n.Some? && s'.owner == s.owner[n.value := t])
             || (m.Some? && n.None? && s'.owner == s.owner - {m.value})
    ensures OwnersOk(calls, s')
  {
    hide MutexOf;
  }

  lemma StepKeepsOwners(calls: seq<Call>, s: State, s': State, t: nat)
    requires OwnersOk(calls, s) && t < |calls| == |s.stages| && Step(calls, s, s', t)
    ensures OwnersOk(calls, s')
  {
    hide Effect, SortVersions, Index, OwnersOk;
    OwnersAfter(calls, s, s', t);
  }

  lemma StepKeepsReads(calls: seq<Call>, s: State, s': State, t: nat)
    requires LocksOk(calls, s) && ReadsCurrent(calls, s) && t < |calls| && Step(calls, s, s', t)
    requires IndexOk(Index(s, calls[t].key))
    ensures |s'.stages| == |calls| && ReadsCurrent(calls, s')
  {
    hide Effect, SortVersions, IndexOk;
    IndexIsFixed(Index(s, calls[t].key));
    forall u | 0 <= u < |calls| && s'.stages[u].HasRead? ensures s'.stages[u].versions == Index(s', calls[u].key) {
      if u != t && s.stages[t].HasRead? && calls[u].key == calls[t].key {
        OneInside(calls, s, t, u);
      }
    }
  }

  lemma StepKeepsLog(calls: seq<Call>, s: State, s': State, t: nat)
    requires LogOk(calls, s) && t < |calls| && Step(calls, s, s', t)
    ensures LogOk(calls, s')
  {
    hide Effect, SortVersions, Index;
    assert !Succeeded(s.stages[t]) || s.stages[t].Finished?;
    forall u | 0 <= u < |calls| ensures u in s'.log <==> Succeeded(s'.stages[u]) {
      assert u in s.log <==> Succeeded(s.stages[u]);
    }
  }

  lemma ReplayNext(calls: seq<Call>, log: seq<nat>, t: nat, key: string, versions: seq<string>)
    requires InRange(calls, log) && t < |calls|
    ensures InRange(calls, log + [t])
    ensures Replay(calls, log + [t], key, versions) ==
            var before := Replay(calls, log, key, versions);
            if calls[t].key == key then Effect(calls[t], before) else before
  {
    assert (log + [t])[..|log|] == log;
  }

  lemma StepKeepsReplay(calls: seq<Call>, s: State, s': State, t: nat, key: string, versions: seq<string>)
    requires InRange(calls, s.log) && |s.stages| == |calls| && ReadsCurrent(calls, s)
    requires t < |calls| && Step(calls, s, s', t) && ValidVersion(calls[t].version)
    requires IndexOk(Index(s, key)) && Index(s, key) == Replay(calls, s.log, key, versions)
    ensures InRange(calls, s'.log)
    ensures IndexOk(Index(s', key)) && Index(s', key) == Replay(calls, s'.log, key, versions)
  {
    hide Effect, SortVersions, IndexOk, ValidVersion, Replay, InRange;
    ReplayNext(calls, s.log, t, key, versions);
    if s'.log == s.log {
      assert Index(s', key) == Index(s, key);
    } else if calls[t].key == key {
      if NothingToDo(calls[t], s.stages[t].versions) { NothingChanges(calls[t], s.stages[t].versions); }
      EffectKeepsIndex(calls[t], s.stages[t].versions);
    }
  }

  lemma StepKeepsInvariant(calls: seq<Call>, start: map<string, seq<string>>, s: State, s': State, t: nat)
    requires Given(calls, start) && Invariant(calls, start, s) && t < |calls| && Step(calls, s, s', t)
    ensures Invariant(calls, start, s')
  {
    hide Step, IndexOk, ValidVersion, LocksOk, OwnersOk, ReadsCurrent, Index, Replay, InRange;
    assert |s.stages| == |calls|;
    StepKeepsLocks(calls, s, s', t);
    StepKeepsOwners(calls, s, s', t);
    StepKeepsReads(calls, s, s', t);
    StepKeepsLog(calls, s, s', t);
    forall key
      ensures IndexOk(Index(s', key)) &&
              Index(s', key) == Replay(calls, s'.log, key, if key in start then start[key] else [])
    {
      StepKeepsReplay(calls, s, s', t, key, if key in start then start[key] else []);
    }
  }

  /** States reached from well-kept indexes by any interleaving of the calls' steps. */
  ghost predicate IsRun(calls: seq<Call>, start: map<string, seq<string>>, states: seq<State>, turns: seq<nat>) {
    && |states| == |turns| + 1 && states[0] == Initial(start, |calls|)
    && forall i :: 0 <= i < |turns| ==>
       turns[i] < |calls| && |states[i].stages| == |calls| && Step(calls, states[i], states[i + 1], turns[i])
  }

  lemma {:induction false} RunKeepsInvariant(calls: seq<Call>, start: map<string, seq<string>>, states: seq<State>,
                                             turns: seq<nat>)
    requires Given(calls, start) && IsRun(calls, start, states, turns)
    ensures Invariant(calls, start, states[|turns|])
  {
    hide Step, Invariant, Given;
    if turns == [] {
      InitialInvariant(calls, start);
    } else {
      var n := |turns| - 1;
      RunKeepsInvariant(calls, start, states[..|states| - 1], turns[..n]);
      StepKeepsInvariant(calls, start, states[n], states[n + 1], turns[n]);
    }
  }

  /** One mutex per key: in any interleaving, two calls on one index are never both between taking
      and releasing it. */
  lemma {:induction false} MutualExclusion(calls: seq<Call>, start: map<string, seq<string>>, states: seq<State>,
                                           turns: seq<nat>, t: nat, u: nat)
    requires Given(calls, start) && IsRun(calls, start, states, turns)
    requires t < |calls| && u < |calls| && calls[t].key == calls[u].key && |states[|turns|].stages| == |calls|
    requires MutexOf(states[|turns|].stages[t]).Some? && MutexOf(states[|turns|].stages[u]).Some?
    ensures t == u
  {
    RunKeepsInvariant(calls, start, states, turns);
    OneInside(calls, states[|turns|], t, u);
  }

  /** No update is lost. In any interleaving each index holds what the calls that report success
      would leave if they ran one after another, in the order of the log: all of them, each once. */
  lemma {:induction false} NoLostUpdates(calls: seq<Call>, start: map<string, seq<string>>, states: seq<State>,
                                         turns: seq<nat>, key: string)
    requires Given(calls, start) && IsRun(calls, start, states, turns)
    ensures var s := states[|turns|];
            && InRange(calls, s.log)
            && Index(s, key) == Replay(calls, s.log, key, if key in start then start[key] else [])
            && (forall i, j :: 0 <= i < j < |s.log| ==> s.log[i] != s.log[j])
            && |s.stages| == |calls|
            && forall t :: 0 <= t < |calls| ==> (t in s.log <==> Succeeded(s.stages[t]))
  {
    RunKeepsInvariant(calls, start, states, turns);
  }

  /** The call at a place of the log is on `v` in the index at `key`. */
  predicate Concerns(calls: seq<Call>, log: seq<nat>, i: int, key: string, v: string)
    requires InRange(calls, log) && 0 <= i < |log|
  {
    calls[log[i]].key == key && calls[log[i]].version == v
  }

  /** No call from place `from` of the log on is on `v` in the index at `key`. */
  ghost predicate NoneFrom(calls: seq<Call>, log: seq<nat>, from: int, key: string, v: string)
    requires InRange(calls, log) && 0 <= from
  {
    forall i :: from <= i < |log| ==> !Concerns(calls, log, i, key, v)
  }

  /** The last such call of the log, at place `i`, is an addition. */
  ghost predicate LastAdds(calls: seq<Call>, log: seq<nat>, i: int, key: string, v: string)
    requires InRange(calls, log)
  {
    0 <= i < |log| && Concerns(calls, log, i, key, v) && calls[log[i]].add && NoneFrom(calls, log, i + 1, key, v)
  }

  ghost predicate Added(calls: seq<Call>, log: seq<nat>, key: string, v: string)
    requires InRange(calls, log)
  {
    exists i :: LastAdds(calls, log, i, key, v)
  }

  lemma EffectMembers(c: Call, versions: seq<string>)
    ensures forall v :: v in Effect(c, versions) <==> if v == c.version then c.add else v in versions
  {
    hide CompareSemver, Without;
    if c.add && c.version !in versions { SortPermutes(versions + [c.version], CompareSemver); }
  }

  lemma {:induction false} ReplayMembers(calls: seq<Call>, log: seq<nat>, key: string, versions: seq<string>, v: string)
    requires InRange(calls, log)
    ensures v in Replay(calls, log, key, versions) <==>
              Added(calls, log, key, v) || (NoneFrom(calls, log, 0, key, v) && v in versions)
  {
    hide Effect;
    if log != [] {
      var n := |log| - 1;
      var front, c := log[..n], calls[log[n]];
      ReplayMembers(calls, front, key, versions, v);
      EffectMembers(c, Replay(calls, front, key, versions));
      if c.key == key && c.version == v {
        assert c.add ==> LastAdds(calls, log, n, key, v);
        LastAtEnd(calls, log, key, v);
      } else {
        LastInFront(calls, log, key, v);
      }
    }
  }

  lemma LastAtEnd(calls: seq<Call>, log: seq<nat>, key: string, v: string)
    requires InRange(calls, log) && log != [] && Concerns(calls, log, |log| - 1, key, v)
    ensures !NoneFrom(calls, log, 0, key, v)
    ensures forall i :: LastAdds(calls, log, i, key, v) ==> i == |log| - 1 && calls[log[i]].add
  {
  }

  lemma LastInFront(calls: seq<Call>, log: seq<nat>, key: string, v: string)
    requires InRange(calls, log) && log != [] && !Concerns(calls, log, |log| - 1, key, v)
    ensures Added(calls, log, key, v) <==> Added(calls, log[..|log| - 1], key, v)
    ensures NoneFrom(calls, log, 0, key, v) <==> NoneFrom(calls, log[..|log| - 1], 0, key, v)
  {
    var front := log[..|log| - 1];
    assert forall i :: 0 <= i < |front| ==> Concerns(calls, front, i, key, v) == Concerns(calls, log, i, key, v);
    if i :| LastAdds(calls, log, i, key, v) { assert LastAdds(calls, front, i, key, v); }
    if i :| LastAdds(calls, front, i, key, v) { assert LastAdds(calls, log, i, key, v); }
  }

  /** What a client reads at any moment of any interleaving: a version is in an index if and only if
      the last call on it that has succeeded is an addition, or there is none and it was there at the
      start. The index is sorted and free of duplicates. */
  lemma {:induction false} LastCallDecides(calls: seq<Call>, start: map<string, seq<string>>, states: seq<State>,
                                           turns: seq<nat>, key: string, v: string)
    requires Given(calls, start) && IsRun(calls, start, states, turns)
    ensures var s := states[|turns|];
            && InRange(calls, s.log) && IndexOk(Index(s, key))
            && (v in Index(s, key) <==>
                Added(calls, s.log, key, v) ||
                (NoneFrom(calls, s.log, 0, key, v) && key in start && v in start[key]))
  {
    hide Step, IndexOk, Replay, InRange, LocksOk, OwnersOk;
    RunKeepsInvariant(calls, start, states, turns);
    ReplayMembers(calls, states[|turns|].log, key, if key in start then start[key] else [], v);
  }

  /** What the store's two index methods do when they run: `Effect`, and on failure nothing. */
  method UpdateIndex(s: Store, d: Directory, add: bool) returns (ok: bool, ghost c: Call)
    requires s.Valid() && WellNamedDir(d)
    modifies s
    ensures s.Valid() && c == Call(KeyText(IndexKey(d)), VersionOf(d), add)
    ensures ok ==> IndexVersions(s.files, IndexKey(d)) == Effect(c, IndexVersions(old(s.files), IndexKey(d)))
    ensures ok ==> IndexOk(IndexVersions(s.files, IndexKey(d))) && forall v ::
              v in IndexVersions(s.files, IndexKey(d)) <==>
              if v == VersionOf(d) then add else v in IndexVersions(old(s.files), IndexKey(d))
    ensures if ok then SameExcept(old(s.files), s.files, {IndexKey(d)}) else s.files == old(s.files)
    ensures NothingToDo(c, IndexVersions(old(s.files), IndexKey(d))) ==>
              ok && s.files == old(s.files) && s.steps == old(s.steps)
    ensures !NothingToDo(c, IndexVersions(old(s.files), IndexKey(d))) ==>
              ok == !s.fails(old(s.steps)) && s.steps == old(s.steps) + 1
  {
    hide Sound, WellNamedDir, IndexOk, AddVersion, Without;
    ghost var before := IndexVersions(s.files, IndexKey(d));
    c := Call(KeyText(IndexKey(d)), VersionOf(d), add);
    IndexSound(s.crypto, s.files, d);
    EffectMembers(c, before);
    IndexNamed(d);
    EffectKeepsIndex(c, before);
    if NothingToDo(c, before) { NothingChanges(c, before); }
    if add {
      ok := s.AddVersionToIndex(d);
    } else {
      ok := s.RemoveVersionFromIndex(d);
    }
  }

  lemma {:induction false} LogGrows(calls: seq<Call>, start: map<string, seq<string>>, states: seq<State>,
                                    turns: seq<nat>, i: nat)
    requires IsRun(calls, start, states, turns) && i <= |turns|
    ensures states[i].log <= states[|turns|].log
  {
    hide Effect, SortVersions, Index;
    if i < |turns| {
      var n := |turns| - 1;
      LogGrows(calls, start, states[..n + 1], turns[..n], i);
      assert Step(calls, states[n], states[n + 1], turns[n]);
      assert states[n].log <= states[n + 1].log;
    }
  }

  /** The order of the log respects time: a call that has returned with success by the time another
      begins comes before it. */
  lemma {:induction false} LogRespectsTime(calls: seq<Call>, start: map<string, seq<string>>, states: seq<State>,
                                           turns: seq<nat>, i: nat, t: nat, u: nat)
    requires Given(calls, start) && IsRun(calls, start, states, turns) && i <= |turns|
    requires t < |calls| && u < |calls| && |states[i].stages| == |calls|
    requires states[i].stages[t] == Done(true) && states[i].stages[u].Start? && u in states[|turns|].log
    ensures var log := states[|turns|].log; exists a, b :: 0 <= a < b < |log| && log[a] == t && log[b] == u
  {
    hide Step, Invariant, Given, LogOk;
    LogGrows(calls, start, states, turns, i);
    RunKeepsInvariant(calls, start, states[..i + 1], turns[..i]);
    var early, log := states[i].log, states[|turns|].log;
    LogMembers(calls, start, states[i], t, u);
    var a :| 0 <= a < |early| && early[a] == t;
    var b :| 0 <= b < |log| && log[b] == u;
    assert log[a] == t;
    assert forall j :: 0 <= j < |early| ==> log[j] == early[j] && early[j] in early;
  }

  lemma LogMembers(calls: seq<Call>, start: map<string, seq<string>>, s: State, t: nat, u: nat)
    requires Invariant(calls, start, s) && t < |calls| && u < |calls|
    requires s.stages[t] == Done(true) && s.stages[u].Start?
    ensures t in s.log && u !in s.log
  {
  }

  // ---- Progress ------------------------------------------------------------------------------

  /** No deadlock: in every reachable state some call can take a step, unless all are done. */
  lemma {:induction false} Progress(calls: seq<Call>, start: map<string, seq<string>>, states: seq<State>,
                                    turns: seq<nat>)
    requires Given(calls, start) && IsRun(calls, start, states, turns)
    ensures var s := states[|turns|];
            && |s.stages| == |calls|
            && ((forall t :: 0 <= t < |calls| ==> s.stages[t].Done?) ||
                exists t: nat, s': State :: t < |calls| && Step(calls, s, s', t))
  {
    hide Step, Index, Replay, IndexOk;
    RunKeepsInvariant(calls, start, states, turns);
    var s := states[|turns|];
    if t :| 0 <= t < |calls| && !s.stages[t].Done? {
      var u := Unblocked(calls, s, t);
      var s' := CanStep(calls, s, u);
    }
  }

  /** A call that is not done, or the one that holds the mutex it waits for. */
  lemma Unblocked(calls: seq<Call>, s: State, t: nat) returns (u: nat)
    requires OwnersOk(calls, s) && t < |calls| && !s.stages[t].Done?
    ensures u < |calls| && !s.stages[u].Done? && (s.stages[u].Waiting? ==> s.stages[u].mutex !in s.owner)
  {
    u := if s.stages[t].Waiting? && s.stages[t].mutex in s.owner then s.owner[s.stages[t].mutex] else t;
  }

  lemma CanStep(calls: seq<Call>, s: State, t: nat) returns (s': State)
    requires t < |calls| == |s.stages| && !s.stages[t].Done? && (s.stages[t].Waiting? ==> s.stages[t].mutex !in s.owner)
    ensures Step(calls, s, s', t)
  {
    var key := calls[t].key;
    match s.stages[t]
    case Start =>
      s' := if key in s.locks then s.(stages := s.stages[t := Waiting(s.locks[key])])
            else s.(locks := s.locks[key := s.created], created := s.created + 1,
                    stages := s.stages[t := Waiting(s.created)]);
    case Waiting(m) => s' := s.(owner := s.owner[m := t], stages := s.stages[t := Holding(m)]);
    case Holding(m) => s' := s.(stages := s.stages[t := Finished(m, false)]);
    case HasRead(m, versions) => s' := s.(stages := s.stages[t := Finished(m, false)]);
    case Finished(m, ok) => s' := s.(owner := s.owner - {m}, stages := s.stages[t := Done(ok)]);
  }

  /** The most steps a call has left. */
  function StepsLeft(stage: Stage): nat {
    match stage
    case Start => 5
    case Waiting(_) => 4
    case Holding(_) => 3
    case HasRead(_, _) => 2
    case Finished(_, _) => 1
    case Done(_) => 0
  }

  function AllLeft(stages: seq<Stage>): nat {
    if stages == [] then 0 else AllLeft(stages[..|stages| - 1]) + StepsLeft(stages[|stages| - 1])
  }

  lemma {:induction false} OneLess(stages: seq<Stage>, t: nat, stage: Stage)
    requires t < |stages| && StepsLeft(stage) < StepsLeft(stages[t])
    ensures AllLeft(stages[t := stage]) < AllLeft(stages)
  {
    var n := |stages| - 1;
    if t < n {
      OneLess(stages[..n], t, stage);
      assert stages[t := stage][..n] == stages[..n][t := stage];
    } else {
      assert stages[t := stage][..n] == stages[..n];
    }
  }

  lemma {:induction false} AllStarting(n: nat)
    ensures AllLeft(seq(n, _ => Start)) == 5 * n
  {
    if n > 0 {
      AllStarting(n - 1);
      assert seq(n, _ => Start)[..n - 1] == seq(n - 1, _ => Start);
    }
  }

  /** Every run ends: `n` calls take at most 5n steps between them. By `Progress`, a run that cannot go
      on has finished every call. */
  lemma {:induction false} RunsEnd(calls: seq<Call>, start: map<string, seq<string>>, states: seq<State>,
                                   turns: seq<nat>)
    requires IsRun(calls, start, states, turns)
    ensures |turns| + AllLeft(states[|turns|].stages) <= 5 * |calls|
  {
    hide Effect, SortVersions, Index, AllLeft;
    if turns == [] {
      AllStarting(|calls|);
    } else {
      var n := |turns| - 1;
      RunsEnd(calls, start, states[..n + 1], turns[..n]);
      var s, s', t := states[n], states[n + 1], turns[n];
      assert Step(calls, s, s', t);
      assert s'.stages == s.stages[t := s'.stages[t]];
      OneLess(s.stages, t, s'.stages[t]);
    }
  }
}
