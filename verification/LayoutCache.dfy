/** The short-lived cache of layout answers, kept per rack and key with a time to live. */
module LayoutCaches {
  import opened Prelude

  const DEFAULT_TTL := 10

  datatype Entry = Entry(value: string, expiry: int)

  type Store = map<string, map<string, Entry>>

  datatype Op =
    | Set(rack: string, key: string, value: string, ttl: int)
    | Get(rack: string, key: string)
    | Clear(rack: string)
    | EvictExpired

  datatype Timed = At(now: int, op: Op)

  predicate Live(e: Entry, now: int) {
    now <= e.expiry
  }

  // ---- What each operation does to the store ----------------------------------------

  function Written(s: Store, rack: string, key: string, e: Entry): Store {
    s[rack := (if rack in s then s[rack] else map[])[key := e]]
  }

  function Dropped(s: Store, rack: string, key: string): Store
    requires rack in s
  {
    s[rack := s[rack] - {key}]
  }

  function LiveEntries(entries: map<string, Entry>, now: int): map<string, Entry> {
    map key | key in entries && Live(entries[key], now) :: entries[key]
  }

  /** Only live entries, and no rack without any. */
  function LiveStore(s: Store, now: int): Store {
    map rack | rack in s && LiveEntries(s[rack], now) != map[] :: LiveEntries(s[rack], now)
  }

  /** What `get` answers at `now`. */
  function Answer(s: Store, rack: string, key: string, now: int): Option<string> {
    if rack in s && key in s[rack] && Live(s[rack][key], now) then Some(s[rack][key].value) else None
  }

  function Step(s: Store, t: Timed): Store {
    match t.op
    case Set(rack, key, value, ttl) => Written(s, rack, key, Entry(value, t.now + ttl))
    case Get(rack, key) =>
      if rack in s && key in s[rack] && !Live(s[rack][key], t.now) then Dropped(s, rack, key) else s
    case Clear(rack) => s - {rack}
    case EvictExpired => LiveStore(s, t.now)
  }

  class LayoutCache {
    var store: Store

    constructor ()
      ensures store == map[]
    {
      store := map[];
    }

    method Set(rack: string, key: string, value: string, now: int, ttl: int := DEFAULT_TTL)
      modifies this
      ensures store == Step(old(store), At(now, Op.Set(rack, key, value, ttl)))
    {
      var expiry := now + ttl;
      if rack !in store {
        store := store[rack := map[]];
      }
      store := store[rack := store[rack][key := Entry(value, expiry)]];
    }

    /** `get`: an expired entry is evicted on the way. */
    method Get(rack: string, key: string, now: int) returns (value: Option<string>)
      modifies this
      ensures value == Answer(old(store), rack, key, now)
      ensures store == Step(old(store), At(now, Op.Get(rack, key)))
    {
      if rack !in store || key !in store[rack] {
        return None;
      }
      var entry := store[rack][key];
      if now > entry.expiry {
        store := store[rack := store[rack] - {key}];
        return None;
      }
      return Some(entry.value);
    }

    method Clear(rack: string)
      modifies this
      ensures forall now :: store == Step(old(store), At(now, Op.Clear(rack)))
    {
      store := store - {rack};
    }

    /** `evict_expired`. */
    method EvictExpired(now: int)
      modifies this
      ensures store == Step(old(store), At(now, Op.EvictExpired))
    {
      hide LiveEntries, LiveStore;
      ghost var before := store;
      ghost var live := LiveStore(store, now);
      LiveStoreHolds(store, now);
      var todo := store.Keys;
      while todo != {}
        invariant todo <= before.Keys && store.Keys <= before.Keys
        invariant forall rack :: rack in todo ==> rack in store && store[rack] == before[rack]
        invariant forall rack :: rack in before && rack !in todo ==> (rack in store <==> rack in live)
        invariant forall rack :: rack in store && rack !in todo ==> store[rack] == live[rack]
        decreases todo
      {
        var rack :| rack in todo;
        var kept := KeepLive(store[rack], now);
        store := store[rack := kept];
        if kept == map[] {
          store := store - {rack};
        }
        todo := todo - {rack};
      }
      assert store == live;
    }

    lemma LiveStoreHolds(s: Store, now: int)
      ensures LiveStore(s, now).Keys <= s.Keys
      ensures forall rack :: rack in s ==>
        && (rack in LiveStore(s, now) <==> LiveEntries(s[rack], now) != map[])
        && (rack in LiveStore(s, now) ==> LiveStore(s, now)[rack] == LiveEntries(s[rack], now))
    {
      hide LiveEntries;
    }

    /** Deletes the expired keys of one rack, one at a time. */
    method KeepLive(entries: map<string, Entry>, now: int) returns (kept: map<string, Entry>)
      ensures kept == LiveEntries(entries, now)
    {
      kept := entries;
      var expired := set key | key in entries && now > entries[key].expiry;
      while expired != {}
        invariant forall key :: key in expired ==> key in kept && key in entries && !Live(entries[key], now)
        invariant forall key :: key in kept <==> key in entries && (Live(entries[key], now) || key in expired)
        invariant forall key :: key in kept ==> kept[key] == entries[key]
        decreases expired
      {
        var key :| key in expired;
        kept := kept - {key};
        expired := expired - {key};
      }
    }
  }

  // ---- What reads and evictions remove ----------------------------------------------

  /** Reading an entry past its expiry removes it, and nothing else. */
  lemma GetRemoves(s: Store, rack: string, key: string, now: int)
    ensures var after := Step(s, At(now, Op.Get(rack, key)));
      && after.Keys == s.Keys
      && forall r, k :: r in s ==>
           (k in after[r] <==> k in s[r] && !(r == rack && k == key && now > s[r][k].expiry))
           && (k in after[r] ==> after[r][k] == s[r][k])
  {
  }

  /** Evicting leaves the entries not past their expiry, and the racks that have such an entry. */
  lemma EvictingLeaves(s: Store, now: int)
    ensures var after := Step(s, At(now, EvictExpired));
      && (forall r :: r in after <==> r in s && exists k :: k in s[r] && now <= s[r][k].expiry)
      && forall r, k :: r in after ==>
           (k in after[r] <==> k in s[r] && now <= s[r][k].expiry) && (k in after[r] ==> after[r][k] == s[r][k])
  {
    forall r ensures r in LiveStore(s, now) <==> r in s && exists k :: k in s[r] && now <= s[r][k].expiry {
      if r in s {
        SomeKey(LiveEntries(s[r], now));
        assert forall k :: k in LiveEntries(s[r], now) <==> k in s[r] && now <= s[r][k].expiry;
      }
    }
  }

  lemma SomeKey(entries: map<string, Entry>)
    ensures entries != map[] <==> exists k :: k in entries
  {
    if entries != map[] {
      assert entries.Keys != {};
    }
  }

  // ---- Runs -------------------------------------------------------------------------

  function Run(ops: seq<Timed>): Store {
    if ops == [] then map[] else Step(Run(ops[..|ops| - 1]), ops[|ops| - 1])
  }

  /** The clock never runs back, and has not passed `now`. */
  predicate ClockBefore(ops: seq<Timed>, now: int) {
    && (forall i, j :: 0 <= i <= j < |ops| ==> ops[i].now <= ops[j].now)
    && (forall i :: 0 <= i < |ops| ==> ops[i].now <= now)
  }

  /** The entry that the last `set` of this key left, unless its rack was cleared since. */
  function Latest(ops: seq<Timed>, rack: string, key: string): Option<Entry> {
    if ops == [] then None
    else
      var last := ops[|ops| - 1];
      if last.op.Set? && last.op.rack == rack && last.op.key == key then
        Some(Entry(last.op.value, last.now + last.op.ttl))
      else if last.op.Clear? && last.op.rack == rack then None
      else Latest(ops[..|ops| - 1], rack, key)
  }

  function Fresh(e: Option<Entry>, now: int): Option<string> {
    if e.Some? && Live(e.value, now) then Some(e.value.value) else None
  }

  /** At any time, whatever was evicted on the way, `get` answers the last value set since the
      rack was last cleared if its time to live has not passed, and nothing otherwise. */
  lemma {:induction false} GetFollowsHistory(ops: seq<Timed>, rack: string, key: string, now: int)
    requires ClockBefore(ops, now)
    ensures Answer(Run(ops), rack, key, now) == Fresh(Latest(ops, rack, key), now)
  {
    if ops != [] {
      var last := ops[|ops| - 1];
      var front := ops[..|ops| - 1];
      GetFollowsHistory(front, rack, key, now);
      StepSeen(Run(front), last, rack, key, now);
    }
  }

  /** A step changes a later answer only by setting that key or clearing that rack. */
  lemma StepSeen(s: Store, t: Timed, rack: string, key: string, now: int)
    requires t.now <= now
    ensures Answer(Step(s, t), rack, key, now) ==
            if t.op.Set? && t.op.rack == rack && t.op.key == key then
              Fresh(Some(Entry(t.op.value, t.now + t.op.ttl)), now)
            else if t.op.Clear? && t.op.rack == rack then None
            else Answer(s, rack, key, now)
  {
    if t.op.EvictExpired? && rack in s && key in s[rack] && Live(s[rack][key], now) {
      assert key in LiveEntries(s[rack], t.now);
    }
  }

  /** In times: a value that is set is answered until the very end of its time to live, and no longer,
      unless the key is set again or its rack cleared. */
  lemma {:induction false} SetLivesUntil(ops: seq<Timed>, i: nat, rack: string, key: string, now: int)
    requires ClockBefore(ops, now) && i < |ops| && ops[i].op.Set? && ops[i].op.rack == rack && ops[i].op.key == key
    requires forall j :: i < j < |ops| ==> !Overrides(ops[j].op, rack, key)
    ensures Answer(Run(ops), rack, key, now)
      == if now <= ops[i].now + ops[i].op.ttl then Some(ops[i].op.value) else None
  {
    GetFollowsHistory(ops, rack, key, now);
    LatestIs(ops, i, rack, key);
  }

  /** It sets the key, or clears the rack. */
  predicate Overrides(op: Op, rack: string, key: string) {
    (op.Set? && op.rack == rack && op.key == key) || (op.Clear? && op.rack == rack)
  }

  lemma {:induction false} LatestIs(ops: seq<Timed>, i: nat, rack: string, key: string)
    requires i < |ops| && ops[i].op.Set? && ops[i].op.rack == rack && ops[i].op.key == key
    requires forall j :: i < j < |ops| ==> !Overrides(ops[j].op, rack, key)
    ensures Latest(ops, rack, key) == Some(Entry(ops[i].op.value, ops[i].now + ops[i].op.ttl))
  {
    if i < |ops| - 1 {
      LatestIs(ops[..|ops| - 1], i, rack, key);
    }
  }

  /** From the start, or from a clearing of the rack on, nothing is answered until the key is set. */
  lemma {:induction false} NothingUntilSet(ops: seq<Timed>, from: nat, rack: string, key: string, now: int)
    requires ClockBefore(ops, now) && from <= |ops|
    requires from == 0 || ops[from - 1].op == Clear(rack)
    requires forall j :: from <= j < |ops| ==> !(ops[j].op.Set? && ops[j].op.rack == rack && ops[j].op.key == key)
    ensures Answer(Run(ops), rack, key, now) == None
  {
    GetFollowsHistory(ops, rack, key, now);
    NeverLatest(ops, from, rack, key);
  }

  lemma {:induction false} NeverLatest(ops: seq<Timed>, from: nat, rack: string, key: string)
    requires from <= |ops| && (from == 0 || ops[from - 1].op == Clear(rack))
    requires forall j :: from <= j < |ops| ==> !(ops[j].op.Set? && ops[j].op.rack == rack && ops[j].op.key == key)
    ensures Latest(ops, rack, key) == None
  {
    if from < |ops| {
      NeverLatest(ops[..|ops| - 1], from, rack, key);
    }
  }

  /** The run without its evictions and reads. */
  function Writes(ops: seq<Timed>): seq<Timed> {
    if ops == [] then []
    else
      var last := ops[|ops| - 1];
      Writes(ops[..|ops| - 1]) + (if last.op.Set? || last.op.Clear? then [last] else [])
  }

  /** Evictions and reads, wherever they come in a run, are invisible to every later `get`. */
  lemma EvictionIsInvisible(ops: seq<Timed>, rack: string, key: string, now: int)
    requires ClockBefore(ops, now)
    ensures Answer(Run(ops), rack, key, now) == Answer(Run(Writes(ops)), rack, key, now)
  {
    GetFollowsHistory(ops, rack, key, now);
    WritesKeepHistory(ops, rack, key, now);
    GetFollowsHistory(Writes(ops), rack, key, now);
  }

  lemma {:induction false} WritesKeepHistory(ops: seq<Timed>, rack: string, key: string, now: int)
    requires ClockBefore(ops, now)
    ensures Latest(Writes(ops), rack, key) == Latest(ops, rack, key)
    ensures ClockBefore(Writes(ops), now)
  {
    hide ClockBefore;
    WritesKeepClock(ops, now);
    if ops != [] {
      var last := ops[|ops| - 1];
      var front := ops[..|ops| - 1];
      FrontClock(ops, now);
      WritesKeepHistory(front, rack, key, now);
      if last.op.Set? || last.op.Clear? {
        assert Writes(ops)[..|Writes(ops)| - 1] == Writes(front);
      } else {
        assert Writes(ops) == Writes(front);
      }
    }
  }

  lemma FrontClock(ops: seq<Timed>, now: int)
    requires ClockBefore(ops, now) && ops != []
    ensures ClockBefore(ops[..|ops| - 1], ops[|ops| - 1].now) && ops[|ops| - 1].now <= now
    ensures ClockBefore(ops[..|ops| - 1], now)
  {
  }

  lemma {:induction false} WritesKeepClock(ops: seq<Timed>, now: int)
    requires ClockBefore(ops, now)
    ensures ClockBefore(Writes(ops), now)
  {
    if ops != [] {
      FrontClock(ops, now);
      WritesKeepClock(ops[..|ops| - 1], ops[|ops| - 1].now);
    }
  }
}
