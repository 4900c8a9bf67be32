// The in-process cache of runtime/cache.go: CacheSet, CacheGet and ClearCache from any
// number of goroutines. CacheGet takes the lock twice, once to read and once to delete
// an expired entry, so other calls may run in between.
module CacheProtocol {
  import opened Options

  datatype Entry<V> = Entry(value: V, expiration: int)

  /** A CacheGet under way. */
  datatype Getter<K, V> =
    | Idle
    | HasRead(key: K, entry: Option<Entry<V>>)  // between the two lock sections
    | Deleting(key: K)  // found the entry expired
    | Returned(key: K, result: Option<V>)

  datatype System<K, V> = System(
    local: map<K, Entry<V>>,  // localCache
    now: int,
    getters: seq<Getter<K, V>>,
    latest: map<K, Entry<V>>,  // history: the entry most recently set for each key since the last clear
    lost: set<K>  // history: the keys whose latest entry a CacheGet deleted although it was live
  )

  datatype Step<K, V> =
    | Tick(d: nat)
    | Set(key: K, value: V, duration: int)
    | Clear
    | Read(c: nat, key: K)  // RLock; entry, exists := localCache[key]; RUnlock
    | Check(c: nat)  // time.Now().After(entry.expiration)
    | Delete(c: nat)  // Lock; delete(localCache, key); Unlock

  predicate Enabled<K(==), V>(s: System<K, V>, step: Step<K, V>) {
    match step
    case Read(c, _) => c < |s.getters| && (s.getters[c].Idle? || s.getters[c].Returned?)
    case Check(c) => c < |s.getters| && s.getters[c].HasRead?
    case Delete(c) => c < |s.getters| && s.getters[c].Deleting?
    case _ => true
  }

  function Get<K, V>(m: map<K, V>, k: K): Option<V> {
    if k in m then Some(m[k]) else None
  }

  function Do<K, V(==)>(s: System<K, V>, step: Step<K, V>): System<K, V>
    requires Enabled(s, step)
  {
    match step
    case Tick(d) => s.(now := s.now + d)
    case Set(key, value, duration) =>
      var e := Entry(value, s.now + duration);
      s.(local := s.local[key := e], latest := s.latest[key := e], lost := s.lost - {key})
    case Clear => s.(local := map[], latest := map[], lost := {})
    case Read(c, key) => s.(getters := s.getters[c := HasRead(key, Get(s.local, key))])
    case Check(c) =>
      var g := s.getters[c];
      if g.entry.None? then s.(getters := s.getters[c := Returned(g.key, None)])
      else if s.now > g.entry.value.expiration then s.(getters := s.getters[c := Deleting(g.key)])
      else s.(getters := s.getters[c := Returned(g.key, Some(g.entry.value.value))])
    case Delete(c) =>
      var g := s.getters[c];
      s.(local := s.local - {g.key},
         lost := if g.key in s.local && s.now <= s.local[g.key].expiration then s.lost + {g.key} else s.lost,
         getters := s.getters[c := Returned(g.key, None)])
  }

  function Fresh<K, V>(now: int, n: nat): System<K, V> {
    System(map[], now, seq(n, _ => Idle), map[], {})
  }

  ghost predicate Run<K, V>(s: System<K, V>, steps: seq<Step<K, V>>, t: System<K, V>)
    decreases |steps|
  {
    if steps == [] then s == t else Enabled(s, steps[0]) && Run(Do(s, steps[0]), steps[1..], t)
  }

  predicate Live<V>(e: Entry<V>, now: int) {
    now <= e.expiration
  }

  /** The map holds latest entries only, and lacks one only if it has expired or was lost. */
  ghost predicate Invariant<K, V>(s: System<K, V>) {
    var kept :=
      && (forall k :: k in s.local ==> k in s.latest && s.local[k] == s.latest[k])
      && (forall k :: k in s.latest && k !in s.local ==> k in s.lost || !Live(s.latest[k], s.now))
      && (forall k :: k in s.lost ==> k in s.latest && k !in s.local);
    kept
  }

  lemma StepKeeps<K, V>(s: System<K, V>, step: Step<K, V>)
    requires Invariant(s) && Enabled(s, step)
    ensures Invariant(Do(s, step))
  {
  }

  lemma {:induction false} RunKeeps<K, V>(s: System<K, V>, steps: seq<Step<K, V>>, t: System<K, V>)
    requires Invariant(s) && Run(s, steps, t)
    ensures Invariant(t)
    decreases |steps|
  {
    if steps != [] {
      StepKeeps(s, steps[0]);
      RunKeeps(Do(s, steps[0]), steps[1..], t);
    }
  }

  /** Whatever runs in between: a value that CacheGet returns was the value most recently
      set for its key when it read the map, and had not expired when it checked. */
  lemma GetReturnsLatest<K, V>(
      now: int, n: nat, before: seq<Step<K, V>>, s: System<K, V>, c: nat, key: K, between: seq<Step<K, V>>, t: System<K, V>)
    requires Run(Fresh(now, n), before, s) && Enabled(s, Read(c, key))
    requires Run(Do(s, Read(c, key)), between, t)
    requires forall i :: 0 <= i < |between| ==> between[i] != Check(c)
    ensures Enabled(t, Check(c))
    ensures var g := Do(t, Check(c)).getters[c];
      g.Returned? && g.result.Some? ==>
        key in s.latest && g.result.value == s.latest[key].value && Live(s.latest[key], t.now)
  {
    RunKeeps(Fresh(now, n), before, s);
    HeldEntryStays(Do(s, Read(c, key)), between, t, c);
  }

  lemma {:induction false} HeldEntryStays<K, V>(s: System<K, V>, steps: seq<Step<K, V>>, t: System<K, V>, c: nat)
    requires c < |s.getters| && s.getters[c].HasRead? && Run(s, steps, t)
    requires forall i :: 0 <= i < |steps| ==> steps[i] != Check(c)
    ensures c < |t.getters| && t.getters[c] == s.getters[c]
    decreases |steps|
  {
    if steps != [] {
      assert steps[0] != Check(c);
      HeldEntryStays(Do(s, steps[0]), steps[1..], t, c);
    }
  }

  /** A read misses an entry that is still live exactly when a delete has taken it. */
  lemma MissesLiveEntryIffLost<K, V>(now: int, n: nat, steps: seq<Step<K, V>>, s: System<K, V>, key: K)
    requires Run(Fresh(now, n), steps, s) && key in s.latest && Live(s.latest[key], s.now)
    ensures Get(s.local, key).None? <==> key in s.lost
  {
    RunKeeps(Fresh(now, n), steps, s);
  }

  // ----- Which sets can be lost -----

  /** A CacheGet that may delete an entry of `key` set now to expire at `expiration`: it
      has found an older one expired, or has read an older one that expires sooner. */
  predicate Threatens<K(==), V>(g: Getter<K, V>, key: K, expiration: int) {
    g == Deleting(key)
    || (g.HasRead? && g.key == key && g.entry.Some? && g.entry.value.expiration < expiration)
  }

  predicate Threatened<K(==), V>(s: System<K, V>, key: K, expiration: int) {
    exists c :: 0 <= c < |s.getters| && Threatens(s.getters[c], key, expiration)
  }

  /** No step sets or clears the entry of `key`. */
  predicate LeavesAlone<K(==), V>(steps: seq<Step<K, V>>, key: K) {
    forall i :: 0 <= i < |steps| ==> !steps[i].Clear? && (steps[i].Set? ==> steps[i].key != key)
  }

  /** Some continuation loses the entry that this set makes. */
  ghost predicate CanBeLost<K(!new), V(!new)>(s: System<K, V>, key: K, value: V, duration: int) {
    exists steps, t ::
      Run(Do(s, Set(key, value, duration)), steps, t) && LeavesAlone(steps, key) && key in t.lost
  }

  /** No CacheGet under way will delete a live entry of `key`. */
  ghost predicate Unthreatened<K, V>(s: System<K, V>, key: K) {
    && key !in s.lost
    && (key in s.local ==> forall c :: 0 <= c < |s.getters| ==>
         && (s.getters[c] == Deleting(key) ==> !Live(s.local[key], s.now))
         && (s.getters[c].HasRead? && s.getters[c].key == key && s.getters[c].entry.Some? ==>
              s.local[key].expiration <= s.getters[c].entry.value.expiration || !Live(s.local[key], s.now)))
  }

  lemma UnthreatenedKeeps<K, V>(s: System<K, V>, step: Step<K, V>, key: K)
    requires Unthreatened(s, key) && Enabled(s, step)
    requires step.Set? && step.key == key ==> step.duration < 0 || !Threatened(s, key, s.now + step.duration)
    ensures Unthreatened(Do(s, step), key)
  {
  }

  lemma {:induction false} UnthreatenedRun<K, V>(s: System<K, V>, steps: seq<Step<K, V>>, t: System<K, V>, key: K)
    requires Unthreatened(s, key) && Run(s, steps, t) && LeavesAlone(steps, key)
    ensures key !in t.lost
    decreases |steps|
  {
    if steps != [] {
      UnthreatenedKeeps(s, steps[0], key);
      assert LeavesAlone(steps[1..], key);
      UnthreatenedRun(Do(s, steps[0]), steps[1..], t, key);
    }
  }

  /** Exactly which sets can be lost: those of an entry that is live at all, made while a
      CacheGet is under way that has found an older entry expired or holds one that
      expires sooner. */
  lemma SetCanBeLostIff<K(!new), V(!new)>(s: System<K, V>, key: K, value: V, duration: int)
    ensures CanBeLost(s, key, value, duration) <==> duration >= 0 && Threatened(s, key, s.now + duration)
  {
    var s1 := Do(s, Set(key, value, duration));
    if duration >= 0 && Threatened(s, key, s.now + duration) {
      var c :| 0 <= c < |s.getters| && Threatens(s.getters[c], key, s.now + duration);
      ThreatLoses(s1, c, key);
    } else if CanBeLost(s, key, value, duration) {
      assert Unthreatened(s1, key);
      var steps, t :| Run(s1, steps, t) && LeavesAlone(steps, key) && key in t.lost;
      UnthreatenedRun(s1, steps, t, key);
      assert false;
    }
  }

  /** The threat carried out: the clock passes the older entry's time, the CacheGet checks,
      and deletes. */
  lemma ThreatLoses<K, V>(s: System<K, V>, c: nat, key: K)
    requires c < |s.getters| && key in s.local && Live(s.local[key], s.now)
    requires Threatens(s.getters[c], key, s.local[key].expiration)
    ensures exists steps, t :: Run(s, steps, t) && LeavesAlone(steps, key) && key in t.lost
  {
    if s.getters[c].Deleting? {
      var last: Step<K, V> := Delete(c);
      RunOne(s, last);
      assert LeavesAlone([last], key);
    } else {
      var wait: Step<K, V> := Tick(if s.getters[c].entry.value.expiration < s.now then 0 else s.getters[c].entry.value.expiration + 1 - s.now);
      var s1 := Do(s, wait);
      var s2 := Do(s1, Check(c));
      RunOne(s, wait);
      RunNext(s, [wait], s1, Check(c));
      RunNext(s, [wait] + [Check(c)], s2, Delete(c));
      assert LeavesAlone([wait] + [Check(c)] + [Delete(c)], key);
    }
  }

  lemma RunOne<K, V>(s: System<K, V>, step: Step<K, V>)
    requires Enabled(s, step)
    ensures Run(s, [step], Do(s, step))
  {
    assert [step][1..] == [];
  }

  /** Every set of a run was made while it was not threatened, or was dead from the start. */
  ghost predicate Unhurried<K, V>(s: System<K, V>, steps: seq<Step<K, V>>)
    decreases |steps|
  {
    steps != [] ==>
      && Enabled(s, steps[0])
      && (steps[0].Set? ==> steps[0].duration < 0 || !Threatened(s, steps[0].key, s.now + steps[0].duration))
      && Unhurried(Do(s, steps[0]), steps[1..])
  }

  /** Such a run never misses a live entry. */
  lemma {:induction false} UnhurriedRunsLoseNothing<K, V>(s: System<K, V>, steps: seq<Step<K, V>>, t: System<K, V>, key: K)
    requires Unthreatened(s, key) && Run(s, steps, t) && Unhurried(s, steps)
    ensures key !in t.lost
    decreases |steps|
  {
    if steps != [] {
      UnthreatenedKeeps(s, steps[0], key);
      UnhurriedRunsLoseNothing(Do(s, steps[0]), steps[1..], t, key);
    }
  }

  /** From the start, without threatened sets, a read finds every live entry. */
  lemma UnthreatenedSetsAreFound<K, V>(now: int, n: nat, steps: seq<Step<K, V>>, s: System<K, V>, key: K)
    requires Run(Fresh(now, n), steps, s) && Unhurried(Fresh(now, n), steps)
    requires key in s.latest && Live(s.latest[key], s.now)
    ensures Get(s.local, key) == Some(s.latest[key])
  {
    RunKeeps(Fresh(now, n), steps, s);
    UnhurriedRunsLoseNothing(Fresh(now, n), steps, s, key);
  }

  lemma {:induction false} RunNext<K, V>(s: System<K, V>, steps: seq<Step<K, V>>, t: System<K, V>, step: Step<K, V>)
    requires Run(s, steps, t) && Enabled(t, step)
    ensures Run(s, steps + [step], Do(t, step))
    decreases |steps|
  {
    if steps == [] {
      assert [step][1..] == [];
    } else {
      assert (steps + [step])[1..] == steps[1..] + [step];
      RunNext(Do(s, steps[0]), steps[1..], t, step);
    }
  }

  /** A set that comes between a CacheGet's finding `key` expired and its delete. */
  lemma OvertakenDelete<K, V>(start: System<K, V>, steps: seq<Step<K, V>>, s: System<K, V>, c: nat, key: K, value: V, duration: nat)
    requires Run(start, steps, s) && c < |s.getters| && s.getters[c] == Deleting(key)
    ensures var t := Do(Do(s, Set(key, value, duration)), Delete(c));
      && Run(start, steps + [Set(key, value, duration)] + [Delete(c)], t)
      && key in t.latest && t.latest[key].value == value && Live(t.latest[key], t.now) && key !in t.local
  {
    RunNext(start, steps, s, Set(key, value, duration));
    RunNext(start, steps + [Set(key, value, duration)], Do(s, Set(key, value, duration)), Delete(c));
  }

  /** It does happen: there is a run that loses the live entry of any key. */
  lemma LiveEntryCanBeLost<K, V>(key: K, older: V, newer: V, duration: nat)
    ensures exists steps, t ::
      && Run(Fresh(0, 1), steps, t) && key in t.latest && t.latest[key].value == newer
      && Live(t.latest[key], t.now) && key !in t.local
  {
    var s0: System<K, V> := Fresh(0, 1);
    var s1 := Do(s0, Set(key, older, 0));
    var s2 := Do(s1, Tick(1));
    var s3 := Do(s2, Read(0, key));
    var s4 := Do(s3, Check(0));
    RunNext(s0, [], s0, Set(key, older, 0));
    var steps := [Set(key, older, 0)];
    assert Run(s0, steps, s1) by { assert [] + steps == steps; }
    RunNext(s0, steps, s1, Tick(1));
    RunNext(s0, steps + [Tick(1)], s2, Read(0, key));
    RunNext(s0, steps + [Tick(1)] + [Read(0, key)], s3, Check(0));
    OvertakenDelete(s0, steps + [Tick(1)] + [Read(0, key)] + [Check(0)], s4, 0, key, newer, duration);
  }

  // ----- One call at a time -----

  /** A whole call, with nothing in between its steps. */
  datatype Call<K, V> = TickCall(d: nat) | SetCall(key: K, value: V, duration: int) | ClearCall | GetCall(key: K)

  /** A plain map whose entries carry an expiry time. */
  datatype Plain<K, V> = Plain(entries: map<K, Entry<V>>, now: int)

  function PlainCall<K, V>(p: Plain<K, V>, call: Call<K, V>): (Plain<K, V>, Option<V>) {
    match call
    case TickCall(d) => (p.(now := p.now + d), None)
    case SetCall(key, value, duration) => (p.(entries := p.entries[key := Entry(value, p.now + duration)]), None)
    case ClearCall => (p.(entries := map[]), None)
    case GetCall(key) =>
      (p, if key in p.entries && p.now <= p.entries[key].expiration then Some(p.entries[key].value) else None)
  }

  /** One goroutine, with no call under way. */
  predicate Quiet<K, V>(s: System<K, V>) {
    |s.getters| == 1 && (s.getters[0].Idle? || s.getters[0].Returned?)
  }

  function CacheCall<K, V(==)>(s: System<K, V>, call: Call<K, V>): (System<K, V>, Option<V>)
    requires Quiet(s)
  {
    match call
    case TickCall(d) => (Do(s, Tick(d)), None)
    case SetCall(key, value, duration) => (Do(s, Set(key, value, duration)), None)
    case ClearCall => (Do(s, Clear), None)
    case GetCall(key) =>
      var t := Do(Do(s, Read(0, key)), Check(0));
      var u := if t.getters[0].Deleting? then Do(t, Delete(0)) else t;
      (u, u.getters[0].result)
  }

  /** The results of calls made one after the other. */
  function CacheResults<K, V(==)>(s: System<K, V>, calls: seq<Call<K, V>>): seq<Option<V>>
    requires Quiet(s)
    decreases |calls|
  {
    if calls == [] then [] else
      var r := CacheCall(s, calls[0]);
      [r.1] + CacheResults(r.0, calls[1..])
  }

  function PlainResults<K, V>(p: Plain<K, V>, calls: seq<Call<K, V>>): seq<Option<V>>
    decreases |calls|
  {
    if calls == [] then [] else
      var r := PlainCall(p, calls[0]);
      [r.1] + PlainResults(r.0, calls[1..])
  }

  /** Without interleaving the cache is a plain map with expiry times. */
  lemma SequentialCacheIsPlainMap<K, V>(now: int, calls: seq<Call<K, V>>)
    ensures CacheResults(Fresh(now, 1), calls) == PlainResults(Plain(map[], now), calls)
  {
    ResultsAgree(Fresh(now, 1), calls);
  }

  lemma {:induction false} ResultsAgree<K, V>(s: System<K, V>, calls: seq<Call<K, V>>)
    requires Quiet(s) && Invariant(s) && s.lost == {}
    ensures CacheResults(s, calls) == PlainResults(Plain(s.latest, s.now), calls)
    decreases |calls|
  {
    if calls != [] {
      CallAgrees(s, calls[0]);
      ResultsAgree(CacheCall(s, calls[0]).0, calls[1..]);
    }
  }

  lemma CallAgrees<K, V>(s: System<K, V>, call: Call<K, V>)
    requires Quiet(s) && Invariant(s) && s.lost == {}
    ensures var (t, r) := CacheCall(s, call);
      Quiet(t) && Invariant(t) && t.lost == {} && (Plain(t.latest, t.now), r) == PlainCall(Plain(s.latest, s.now), call)
  {
  }
}
