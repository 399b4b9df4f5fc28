/** The bounded flow store of the user interface: a map in insertion order, used as an LRU cache
    (client/web/antrea-ui-components/src/lib/flow-store.ts). */
module FlowCache {
  import opened Wrappers
  import opened FlowSamples

  // ---------------------------------------------------------------- recency

  function Without<K(==)>(s: seq<K>, key: K): (r: seq<K>)
    ensures |r| <= |s|
  {
    if s == [] then [] else Without(Init(s), key) + if Last(s) == key then [] else [Last(s)]
  }

  /** All keys touched, each once, in the order of their last touch. */
  function Recency<K(==)>(touches: seq<K>): seq<K> {
    if touches == [] then [] else Touched(Recency(Init(touches)), Last(touches))
  }

  function Touched<K(==)>(keys: seq<K>, key: K): seq<K> {
    Without(keys, key) + [key]
  }

  function LastN<K>(s: seq<K>, n: nat): seq<K> {
    if |s| <= n then s else s[|s| - n..]
  }

  ghost predicate Distinct<K(!new)>(s: seq<K>) {
    forall i, j | 0 <= i < j < |s| :: s[i] != s[j]
  }

  /** The position of the last touch of a key. */
  function LastTouch<K(==)>(touches: seq<K>, key: K): (i: nat)
    requires key in touches
    ensures i < |touches| && touches[i] == key && forall j | i < j < |touches| :: touches[j] != key
  {
    if Last(touches) == key then |touches| - 1 else LastTouch(Init(touches), key)
  }

  lemma {:induction false} WithoutKeys<K>(s: seq<K>, key: K)
    ensures forall k | k in Without(s, key) :: k in s && k != key
    ensures forall k | k in s && k != key :: k in Without(s, key)
  {
    if s != [] {
      WithoutKeys(Init(s), key);
      assert s == Init(s) + [Last(s)];
    }
  }

  lemma DistinctSnoc<K(!new)>(s: seq<K>, key: K)
    requires Distinct(s) && key !in s
    ensures Distinct(s + [key])
  {
    assert forall i | 0 <= i < |s| :: s[i] in s && (s + [key])[i] == s[i];
  }

  lemma {:induction false} WithoutDistinct<K(!new)>(s: seq<K>, key: K)
    requires Distinct(s)
    ensures Distinct(Without(s, key))
  {
    if s != [] {
      WithoutDistinct(Init(s), key);
      WithoutKeys(Init(s), key);
      assert Last(s) !in Init(s);
      if Last(s) != key {
        DistinctSnoc(Without(Init(s), key), Last(s));
      }
    }
  }

  lemma {:induction false} WithoutAbsent<K>(s: seq<K>, key: K)
    requires key !in s
    ensures Without(s, key) == s
  {
    if s != [] {
      WithoutAbsent(Init(s), key);
    }
  }

  lemma {:induction false} WithoutPresent<K(!new)>(s: seq<K>, key: K)
    requires Distinct(s) && key in s
    ensures |Without(s, key)| == |s| - 1
  {
    if Last(s) == key {
      WithoutAbsent(Init(s), key);
    } else {
      WithoutPresent(Init(s), key);
    }
  }

  lemma {:induction false} WithoutConcat<K>(a: seq<K>, b: seq<K>, key: K)
    ensures Without(a + b, key) == Without(a, key) + Without(b, key)
  {
    if b == [] {
      assert a + b == a;
    } else {
      WithoutConcat(a, Init(b), key);
      assert Init(a + b) == a + Init(b);
    }
  }

  lemma TouchedDistinct<K(!new)>(s: seq<K>, key: K)
    requires Distinct(s)
    ensures Distinct(Touched(s, key))
  {
    WithoutDistinct(s, key);
    WithoutKeys(s, key);
    DistinctSnoc(Without(s, key), key);
  }

  ghost predicate Ranked<K(!new)>(s: seq<K>, rank: K -> int) {
    forall i, j | 0 <= i < j < |s| :: rank(s[i]) < rank(s[j])
  }

  lemma {:induction false} WithoutRanked<K(!new)>(s: seq<K>, key: K, rank: K -> int)
    requires Ranked(s, rank)
    ensures Ranked(Without(s, key), rank)
  {
    if s != [] {
      WithoutRanked(Init(s), key, rank);
      WithoutKeys(Init(s), key);
      assert forall k | k in Init(s) :: rank(k) < rank(Last(s));
    }
  }

  function Rank<K(==)>(touches: seq<K>): K -> int {
    k => if k in touches then LastTouch(touches, k) else -1
  }

  /** Recency is what it is called: every key touched, once, ordered by the position of its last touch. */
  lemma {:induction false} RecencyIsOrdered<K(!new)>(touches: seq<K>)
    ensures Distinct(Recency(touches)) && Ranked(Recency(touches), Rank(touches))
    ensures forall k :: k in Recency(touches) <==> k in touches
  {
    if touches != [] {
      var before, key := Init(touches), Last(touches);
      RecencyIsOrdered(before);
      TouchedDistinct(Recency(before), key);
      WithoutKeys(Recency(before), key);
      WithoutRanked(Recency(before), key, Rank(before));
      assert touches == before + [key];
      var kept := Without(Recency(before), key);
      assert forall k | k in kept :: Rank(touches)(k) == Rank(before)(k) < |before|;
      RankedSnoc(kept, key, Rank(before), Rank(touches));
    }
  }

  lemma RankedSnoc<K(!new)>(kept: seq<K>, key: K, rank: K -> int, rank': K -> int)
    requires Ranked(kept, rank) && forall k | k in kept :: rank'(k) == rank(k) < rank'(key)
    ensures Ranked(kept + [key], rank')
  {
  }

  /** Touching a key among the n most recent is touching it among all. */
  lemma TouchLastN<K(!new)>(recency: seq<K>, n: nat, key: K)
    requires Distinct(recency)
    ensures LastN(Touched(LastN(recency, n), key), n) == LastN(Touched(recency, key), n)
  {
    if |recency| > n {
      var evicted, kept := recency[..|recency| - n], LastN(recency, n);
      assert recency == evicted + kept;
      WithoutConcat(evicted, kept, key);
      if key in kept { WithoutPresent(kept, key); } else { WithoutAbsent(kept, key); }
      assert Touched(recency, key) == Without(evicted, key) + Touched(kept, key);
      LastNOfConcat(Without(evicted, key), Touched(kept, key), n);
    }
  }

  lemma LastNOfConcat<K>(a: seq<K>, b: seq<K>, n: nat)
    requires |b| >= n
    ensures LastN(a + b, n) == LastN(b, n)
  {
    assert (a + b)[|a + b| - n..] == b[|b| - n..];
  }

  lemma LastNRanked<K(!new)>(all: seq<K>, n: nat, rank: K -> int)
    requires Ranked(all, rank)
    ensures Ranked(LastN(all, n), rank)
  {
    var kept := LastN(all, n);
    assert forall i | 0 <= i < |kept| :: kept[i] == all[|all| - |kept| + i];
  }

  lemma KeptRankHigher<K(!new)>(all: seq<K>, n: nat, rank: K -> int, a: K, b: K)
    requires Ranked(all, rank) && a in LastN(all, n) && b in all && b !in LastN(all, n)
    ensures rank(b) < rank(a)
  {
    var kept := LastN(all, n);
    var d := |all| - |kept|;
    var i :| 0 <= i < |kept| && kept[i] == a;
    var j :| 0 <= j < |all| && all[j] == b;
    assert all[d + i] == a;
    assert forall m | d <= m < |all| :: all[m] == kept[m - d] && all[m] in kept;
  }

  /** Every key kept was touched later than every key touched and not kept. */
  ghost predicate OutlastsOthers<K(!new)>(kept: seq<K>, touches: seq<K>) {
    forall a, b | a in kept && b in touches && b !in kept :: a in touches && LastTouch(touches, b) < LastTouch(touches, a)
  }

  /** What an LRU cache of size n holds: n keys if that many were touched, all of them otherwise, in the order of their last
      touch; and every key it holds was touched later than every key it does not hold. */
  lemma MostRecentlyTouched<K(!new)>(touches: seq<K>, n: nat)
    ensures var kept := LastN(Recency(touches), n);
            && |kept| == (if |Recency(touches)| <= n then |Recency(touches)| else n)
            && Ranked(kept, Rank(touches))
            && OutlastsOthers(kept, touches)
  {
    var all, kept := Recency(touches), LastN(Recency(touches), n);
    RecencyIsOrdered(touches);
    LastNRanked(all, n, Rank(touches));
    forall a, b | a in kept && b in touches && b !in kept
      ensures a in touches && LastTouch(touches, b) < LastTouch(touches, a)
    {
      assert a in all;
      KeptRankHigher(all, n, Rank(touches), a, b);
      assert Rank(touches)(b) < Rank(touches)(a);
    }
  }

  /** One more touch, seen from the keys stored: the touched key goes to the end, and what no longer fits leaves at the
      front. */
  lemma OneMoreTouch<K(!new)>(touches: seq<K>, n: nat, key: K)
    ensures var kept := LastN(Recency(touches), n);
            && LastN(Touched(kept, key), n) == LastN(Recency(touches + [key]), n)
            && Distinct(Touched(kept, key))
            && |Touched(kept, key)| == (if key in kept then |kept| else |kept| + 1)
            && (forall k | k in Touched(kept, key) :: k in kept || k == key)
            && (forall k | k in kept :: k in Touched(kept, key))
  {
    var kept := LastN(Recency(touches), n);
    RecencyIsOrdered(touches);
    TouchLastN(Recency(touches), n, key);
    assert Init(touches + [key]) == touches;
    assert Distinct(kept);
    TouchedDistinct(kept, key);
    WithoutKeys(kept, key);
    if key in kept { WithoutPresent(kept, key); } else { WithoutAbsent(kept, key); }
  }

  ghost predicate Lists<K(!new)>(keys: seq<K>, stored: set<K>) {
    (forall k | k in keys :: k in stored) && (forall k | k in stored :: k in keys)
  }

  lemma ListsTouched<K(!new)>(touches: seq<K>, n: nat, stored: set<K>, key: K)
    requires Lists(LastN(Recency(touches), n), stored)
    ensures Lists(Touched(LastN(Recency(touches), n), key), stored + {key})
  {
    OneMoreTouch(touches, n, key);
    assert Touched(LastN(Recency(touches), n), key)[|Touched(LastN(Recency(touches), n), key)| - 1] == key;
  }

  lemma ListsTail<K(!new)>(keys: seq<K>, stored: set<K>)
    requires keys != [] && Distinct(keys) && Lists(keys, stored)
    ensures Lists(keys[1..], stored - {keys[0]}) && Distinct(keys[1..])
  {
    assert forall i | 0 < i < |keys| :: keys[i] == keys[1..][i - 1];
  }

  ghost predicate IsCacheOf<K(!new)>(keys: seq<K>, stored: set<K>, touches: seq<K>, n: nat) {
    forall p: Seal {:trigger Unlocked(p)} :: p.CacheSeal? && Unlocked(p) ==>
      keys == LastN(Recency(touches), n) && Lists(keys, stored)
  }

  function MovedToEnd<K(==)>(keys: seq<K>, stored: set<K>, key: K): seq<K> {
    if key in stored then Without(keys, key) + [key] else keys + [key]
  }

  /** The keys list the stored entries, each once. */
  ghost predicate Indexes<K(!new)>(keys: seq<K>, stored: set<K>) {
    forall p: Seal {:trigger Unlocked(p)} :: p.IndexSeal? && Unlocked(p) ==> Distinct(keys) && Lists(keys, stored)
  }

  lemma IndexesTail<K(!new)>(keys: seq<K>, stored: set<K>)
    requires keys != [] && Indexes(keys, stored)
    ensures keys[0] in stored && Indexes(keys[1..], stored - {keys[0]})
  {
    assert Unlocked(IndexSeal);
    ListsTail(keys, stored);
  }

  lemma Touch<K(!new)>(keys: seq<K>, stored: set<K>, touches: seq<K>, n: nat, key: K)
    requires IsCacheOf(keys, stored, touches, n)
    ensures MovedToEnd(keys, stored, key) == Touched(keys, key)
    ensures Indexes(MovedToEnd(keys, stored, key), stored + {key})
    ensures |MovedToEnd(keys, stored, key)| == if key in stored then |keys| else |keys| + 1
  {
    assert Unlocked(CacheSeal);
    OneMoreTouch(touches, n, key);
    ListsTouched(touches, n, stored, key);
    if key !in stored {
      WithoutAbsent(keys, key);
    }
  }

  /** Moving the touched key to the end, and then keeping what fits, gives the cache of one more touch. */
  lemma CacheAfterTouch<K(!new)>(keys: seq<K>, stored: set<K>, touches: seq<K>, n: nat, key: K, keys': seq<K>, stored': set<K>)
    requires IsCacheOf(keys, stored, touches, n)
    requires keys' == LastN(MovedToEnd(keys, stored, key), n) && Indexes(keys', stored')
    ensures IsCacheOf(keys', stored', touches + [key], n)
  {
    Touch(keys, stored, touches, n, key);
    assert Unlocked(CacheSeal) && Unlocked(IndexSeal);
    OneMoreTouch(touches, n, key);
  }

  lemma CacheAfterHit<K(!new)>(keys: seq<K>, stored: set<K>, touches: seq<K>, n: nat, key: K)
    requires IsCacheOf(keys, stored, touches, n) && key in stored
    ensures var moved := Without(keys, key) + [key];
            |moved| == |keys| && IsCacheOf(moved, stored, touches + [key], n)
  {
    Touch(keys, stored, touches, n, key);
    assert |keys| <= n by { assert Unlocked(CacheSeal); }
    assert stored + {key} == stored;
    CacheAfterTouch(keys, stored, touches, n, key, Without(keys, key) + [key], stored);
  }

  lemma PutBack<K, V>(m: map<K, V>, k: K)
    requires k in m
    ensures (m - {k})[k := m[k]] == m
  {
  }

  // ---------------------------------------------------------------- the store

  /** A connection: the 5-tuple with its source port masked. */
  datatype Key = Key(text: string)

  /** A flow record: its connection key, and what it says about time and bytes. */
  datatype Flow = Flow(key: Key, reading: Reading)

  class FlowEntry {
    const key: Key
    const flow: Flow
    const firstSeen: int
    var lastSeen: int
    const samples: seq<Sample>

    constructor (key: Key, flow: Flow, firstSeen: int, lastSeen: int, samples: seq<Sample>)
      ensures this.key == key && this.flow == flow && this.firstSeen == firstSeen && this.lastSeen == lastSeen
      ensures this.samples == samples
    {
      this.key, this.flow, this.firstSeen, this.lastSeen, this.samples := key, flow, firstSeen, lastSeen, samples;
    }
  }

  // ---------------------------------------------------------------- the past of a store

  /** A call since the last clear, with the time it read, and whether it found its key. */
  datatype Call = Upserted(flow: Flow, at: int, found: bool) | Read(key: Key, at: int, found: bool)

  function KeyOf(c: Call): Key {
    if c.Upserted? then c.flow.key else c.key
  }

  predicate Upserts(c: Call, k: Key) {
    c.Upserted? && c.flow.key == k
  }

  predicate Inserts(c: Call, k: Key) {
    Upserts(c, k) && !c.found
  }

  /** A lookup that misses touches nothing. */
  predicate Touches(c: Call, k: Key) {
    KeyOf(c) == k && (c.Upserted? || c.found)
  }

  function TouchedKeys(log: seq<Call>): seq<Key> {
    FlatMap(c => if Touches(c, KeyOf(c)) then [KeyOf(c)] else [], log)
  }

  function Insertions(log: seq<Call>): seq<Key> {
    FlatMap(c => if Inserts(c, KeyOf(c)) then [KeyOf(c)] else [], log)
  }

  /** What the upserts of a connection have read. */
  function ReadingsOf(log: seq<Call>, k: Key): seq<Reading> {
    FlatMap(c => if Upserts(c, k) then [c.flow.reading] else [], log)
  }

  lemma OneMoreCall(log: seq<Call>, c: Call, k: Key)
    ensures TouchedKeys(log + [c]) == if Touches(c, KeyOf(c)) then TouchedKeys(log) + [KeyOf(c)] else TouchedKeys(log)
    ensures Insertions(log + [c]) == if Inserts(c, KeyOf(c)) then Insertions(log) + [KeyOf(c)] else Insertions(log)
    ensures ReadingsOf(log + [c], k) == if Upserts(c, k) then ReadingsOf(log, k) + [c.flow.reading] else ReadingsOf(log, k)
  {
    assert TouchedKeys(log) + [] == TouchedKeys(log) && Insertions(log) + [] == Insertions(log);
    assert ReadingsOf(log, k) + [] == ReadingsOf(log, k);
    FlatMapSnoc(x => if Touches(x, KeyOf(x)) then [KeyOf(x)] else [], log, c);
    FlatMapSnoc(x => if Inserts(x, KeyOf(x)) then [KeyOf(x)] else [], log, c);
    FlatMapSnoc(x => if Upserts(x, k) then [x.flow.reading] else [], log, c);
  }

  /** Call i was of that kind, and none has been since. */
  ghost predicate LastlyAt(log: seq<Call>, kind: Call -> bool, i: nat) {
    i < |log| && kind(log[i]) && forall j | i < j < |log| :: !kind(log[j])
  }

  lemma LastlyStill(log: seq<Call>, kind: Call -> bool, i: nat, c: Call)
    requires LastlyAt(log, kind, i) && !kind(c)
    ensures LastlyAt(log + [c], kind, i)
  {
  }

  lemma LastlyNow(log: seq<Call>, kind: Call -> bool, c: Call)
    requires kind(c)
    ensures LastlyAt(log + [c], kind, |log|)
  {
  }

  /** The calls that last inserted a connection, last updated it and last touched it. */
  datatype Marks = Marks(inserted: nat, updated: nat, touched: nat)

  /** What a stored entry is made of: the calls since the last clear, and nothing else. */
  ghost predicate Tells(k: Key, flow: Flow, firstSeen: int, lastSeen: int, samples: seq<Sample>, log: seq<Call>, m: Marks) {
    forall p: Seal {:trigger Unlocked(p)} :: p.FlowEntrySeal? && Unlocked(p) ==>
      && LastlyAt(log, c => Inserts(c, k), m.inserted) && firstSeen == log[m.inserted].at
      && LastlyAt(log, c => Upserts(c, k), m.updated) && flow == log[m.updated].flow
      && LastlyAt(log, c => Touches(c, k), m.touched) && lastSeen == log[m.touched].at
      && samples == Folded(ReadingsOf(log[m.inserted..], k))
  }

  lemma FromStill(log: seq<Call>, c: Call, i: nat, k: Key)
    requires i <= |log|
    ensures ReadingsOf((log + [c])[i..], k) ==
            if Upserts(c, k) then ReadingsOf(log[i..], k) + [c.flow.reading] else ReadingsOf(log[i..], k)
  {
    assert (log + [c])[i..] == log[i..] + [c];
    OneMoreCall(log[i..], c, k);
  }

  lemma OneMoreReading(readings: seq<Reading>, r: Reading)
    ensures Folded(readings + [r]) == NextSamples(Folded(readings), r)
  {
    assert Init(readings + [r]) == readings;
  }

  /** A call that does not touch a connection leaves what its entry tells. */
  lemma StillTells(k: Key, flow: Flow, firstSeen: int, lastSeen: int, samples: seq<Sample>, log: seq<Call>, m: Marks, c: Call)
    requires Tells(k, flow, firstSeen, lastSeen, samples, log, m) && !Touches(c, k)
    ensures Tells(k, flow, firstSeen, lastSeen, samples, log + [c], m)
  {
    assert Unlocked(FlowEntrySeal);
    LastlyStill(log, x => Inserts(x, k), m.inserted, c);
    LastlyStill(log, x => Upserts(x, k), m.updated, c);
    LastlyStill(log, x => Touches(x, k), m.touched, c);
    FromStill(log, c, m.inserted, k);
  }

  lemma TellsInserted(flow: Flow, at: int, log: seq<Call>)
    ensures Tells(flow.key, flow, at, at, NextSamples([], flow.reading), log + [Upserted(flow, at, false)], Marks(|log|, |log|, |log|))
  {
    var k, c := flow.key, Upserted(flow, at, false);
    LastlyNow(log, x => Inserts(x, k), c);
    LastlyNow(log, x => Upserts(x, k), c);
    LastlyNow(log, x => Touches(x, k), c);
    FromStill(log, c, |log|, k);
    assert log[|log|..] == [];
    OneMoreReading([], flow.reading);
  }

  lemma TellsUpdated(was: Flow, firstSeen: int, lastSeen: int, samples: seq<Sample>, log: seq<Call>, m: Marks, flow: Flow, at: int)
    requires Tells(flow.key, was, firstSeen, lastSeen, samples, log, m)
    ensures Tells(flow.key, flow, firstSeen, at, NextSamples(samples, flow.reading), log + [Upserted(flow, at, true)],
                  Marks(m.inserted, |log|, |log|))
  {
    assert Unlocked(FlowEntrySeal);
    var k, c := flow.key, Upserted(flow, at, true);
    LastlyStill(log, x => Inserts(x, k), m.inserted, c);
    LastlyNow(log, x => Upserts(x, k), c);
    LastlyNow(log, x => Touches(x, k), c);
    FromStill(log, c, m.inserted, k);
    OneMoreReading(ReadingsOf(log[m.inserted..], k), flow.reading);
  }

  lemma TellsRead(k: Key, flow: Flow, firstSeen: int, lastSeen: int, samples: seq<Sample>, log: seq<Call>, m: Marks, at: int)
    requires Tells(k, flow, firstSeen, lastSeen, samples, log, m)
    ensures Tells(k, flow, firstSeen, at, samples, log + [Read(k, at, true)], m.(touched := |log|))
  {
    assert Unlocked(FlowEntrySeal);
    var c := Read(k, at, true);
    LastlyStill(log, x => Inserts(x, k), m.inserted, c);
    LastlyStill(log, x => Upserts(x, k), m.updated, c);
    LastlyNow(log, x => Touches(x, k), c);
    FromStill(log, c, m.inserted, k);
  }

  lemma TellsWhen(k: Key, flow: Flow, firstSeen: int, lastSeen: int, samples: seq<Sample>, log: seq<Call>, m: Marks)
    requires Tells(k, flow, firstSeen, lastSeen, samples, log, m)
    ensures m.inserted < |log| && m.updated < |log| && m.touched < |log|
    ensures var c := log[m.inserted]; c.Upserted? && c.flow.key == k && !c.found && firstSeen == c.at
    ensures forall j | m.inserted < j < |log| && log[j].Upserted? && log[j].flow.key == k :: log[j].found
    ensures var c := log[m.updated]; c.Upserted? && c.flow.key == k && flow == c.flow
    ensures forall j | m.updated < j < |log| && log[j].Upserted? :: log[j].flow.key != k
    ensures var c := log[m.touched]; lastSeen == c.at && if c.Upserted? then c.flow.key == k else c.key == k && c.found
    ensures forall j | m.touched < j < |log| :: if log[j].Upserted? then log[j].flow.key != k else log[j].key == k ==> !log[j].found
  {
    assert Unlocked(FlowEntrySeal);
  }

  lemma TellsWindow(k: Key, flow: Flow, firstSeen: int, lastSeen: int, samples: seq<Sample>, log: seq<Call>, m: Marks)
    requires Tells(k, flow, firstSeen, lastSeen, samples, log, m)
    ensures m.inserted < |log|
    ensures samples == Window(FlatMap((c: Call) => if c.Upserted? && c.flow.key == k then [c.flow.reading] else [], log[m.inserted..]))
  {
    assert Unlocked(FlowEntrySeal);
    var since := log[m.inserted..];
    FoldedIsWindow(ReadingsOf(since, k));
    FlatMapSame(c => if Upserts(c, k) then [c.flow.reading] else [],
                (c: Call) => if c.Upserted? && c.flow.key == k then [c.flow.reading] else [], since);
  }

  /** A call found its key exactly if the key was then among the n most recently touched. */
  ghost predicate FoundIfRecent(log: seq<Call>, n: nat) {
    forall p: Seal {:trigger Unlocked(p)} :: p.WindowSeal? && Unlocked(p) ==>
      forall i | 0 <= i < |log| :: log[i].found <==> KeyOf(log[i]) in LastN(Recency(TouchedKeys(log[..i])), n)
  }

  lemma FoundIfRecentNext(keys: seq<Key>, stored: set<Key>, log: seq<Call>, n: nat, c: Call)
    requires FoundIfRecent(log, n) && IsCacheOf(keys, stored, TouchedKeys(log), n) && (c.found <==> KeyOf(c) in stored)
    ensures FoundIfRecent(log + [c], n)
  {
    assert Unlocked(WindowSeal) && Unlocked(CacheSeal);
    forall i | 0 <= i < |log + [c]|
      ensures (log + [c])[i].found <==> KeyOf((log + [c])[i]) in LastN(Recency(TouchedKeys((log + [c])[..i])), n)
    {
      assert (log + [c])[..i] == log[..i];
      assert i == |log| ==> log[..i] == log;
    }
  }

  /** Except for one key, what is stored after was stored before, as the same object. */
  ghost predicate KeptElsewhere(before: map<Key, FlowEntry>, after: map<Key, FlowEntry>, key: Key) {
    forall k | k in after && k != key :: k in before && after[k] == before[k]
  }

  ghost predicate KeptEverywhere(before: map<Key, FlowEntry>, after: map<Key, FlowEntry>) {
    forall k | k in after :: k in before && after[k] == before[k]
  }

  lemma KeptInTwoSteps(before: map<Key, FlowEntry>, mid: map<Key, FlowEntry>, after: map<Key, FlowEntry>, key: Key)
    requires KeptElsewhere(before, mid, key) && KeptEverywhere(mid, after)
    ensures KeptElsewhere(before, after, key)
  {
  }

  class FlowStore {
    const maxEntries: nat
    /** A Map iterates in insertion order: its keys in that order, and its content. */
    var keys: seq<Key>
    var entries: map<Key, FlowEntry>
    var evictionCount: nat

    /** The calls since the last clear, and where in them to look for what a stored entry tells. */
    ghost var log: seq<Call>
    ghost var marks: map<Key, Marks>

    /** The store is the LRU cache of the keys touched, nothing is lost count of, and every entry tells its own past. */
    ghost predicate Valid()
      reads this, entries.Values
    {
      && IsCacheOf(keys, entries.Keys, TouchedKeys(log), maxEntries)
      && |keys| + evictionCount == |Insertions(log)|
      && FoundIfRecent(log, maxEntries)
      && Telling()
    }

    ghost predicate Telling()
      reads this, entries.Values
    {
      forall k | k in entries :: k in marks && EntryTells(entries[k], k, log, marks[k])
    }

    static ghost predicate EntryTells(e: FlowEntry, k: Key, log: seq<Call>, m: Marks)
      reads e
    {
      e.key == k && Tells(k, e.flow, e.firstSeen, e.lastSeen, e.samples, log, m)
    }

    constructor (maxEntries: nat)
      ensures Valid() && this.maxEntries == maxEntries && log == [] && keys == []
    {
      this.maxEntries := maxEntries;
      keys, entries, evictionCount := [], map[], 0;
      log, marks := [], map[];
    }

    /** The loop that ends an upsert: the oldest keys go until the store fits. */
    method Evict()
      requires Indexes(keys, entries.Keys)
      modifies `keys, `entries, `evictionCount
      ensures keys == LastN(old(keys), maxEntries)
      ensures Indexes(keys, entries.Keys)
      ensures KeptEverywhere(old(entries), entries)
      ensures |keys| + evictionCount == old(|keys| + evictionCount)
    {
      ghost var all := keys;
      while |keys| > maxEntries
        invariant |keys| <= |all| && keys == all[|all| - |keys|..] && (keys == all || |keys| >= maxEntries)
        invariant Indexes(keys, entries.Keys)
        invariant KeptEverywhere(old(entries), entries)
        invariant |keys| + evictionCount == old(|keys| + evictionCount)
      {
        var oldest := keys[0];
        ghost var before := entries.Keys;
        IndexesTail(keys, entries.Keys);
        keys, entries := keys[1..], entries - {oldest};
        assert entries.Keys == before - {oldest};
        evictionCount := evictionCount + 1;
      }
    }

    /** The entry an upsert makes, from the one it finds, if any. */
    static method NextEntry(existing: FlowEntry?, flow: Flow, now: int, ghost log: seq<Call>, ghost m: Marks)
      returns (entry: FlowEntry, ghost m': Marks)
      requires existing != null ==> EntryTells(existing, flow.key, log, m)
      ensures fresh(entry) && EntryTells(entry, flow.key, log + [Upserted(flow, now, existing != null)], m')
    {
      var samples := if existing != null then existing.samples else [];
      if existing == null {
        TellsInserted(flow, now, log);
        m' := Marks(|log|, |log|, |log|);
      } else {
        TellsUpdated(existing.flow, existing.firstSeen, existing.lastSeen, samples, log, m, flow, now);
        m' := Marks(m.inserted, |log|, |log|);
      }
      samples := NextSamples(samples, flow.reading);
      entry := new FlowEntry(flow.key, flow, if existing != null then existing.firstSeen else now, now, samples);
    }

    /** The entries of other keys still tell their past after one more call. */
    lemma OthersStillTell(c: Call, except: set<Key>)
      requires Telling() && forall k | Touches(c, k) :: k in except
      ensures forall k | k in entries && k !in except :: k in marks && EntryTells(entries[k], k, log + [c], marks[k])
    {
      forall k | k in entries && k !in except
        ensures EntryTells(entries[k], k, log + [c], marks[k])
      {
        var e := entries[k];
        StillTells(k, e.flow, e.firstSeen, e.lastSeen, e.samples, log, marks[k], c);
      }
    }

    /** The first part of an upsert: the entry moves to the end, or is added there. */
    method Put(flow: Flow, now: int)
      requires Telling()
      modifies `keys, `entries, `log, `marks
      ensures Telling()
      ensures keys == MovedToEnd(old(keys), old(entries.Keys), flow.key)
      ensures entries.Keys == old(entries.Keys) + {flow.key}
      ensures KeptElsewhere(old(entries), entries, flow.key)
      ensures log == old(log) + [Upserted(flow, now, flow.key in old(entries))]
      ensures flow.key in entries ==> fresh(entries[flow.key])
    {
      var key := flow.key;
      var existing: FlowEntry? := if key in entries then entries[key] else null;
      OthersStillTell(Upserted(flow, now, existing != null), {key});
      if existing != null {
        keys, entries := Without(keys, key), entries - {key};
      }
      var entry;
      ghost var m;
      entry, m := NextEntry(existing, flow, now, log, if existing != null then marks[key] else Marks(0, 0, 0));
      keys, entries := keys + [key], entries[key := entry];
      log, marks := log + [Upserted(flow, now, existing != null)], marks[key := m];
    }

    /** What an upsert does to the map. */
    method PutAndEvict(flow: Flow, now: int)
      requires Telling() && Indexes(MovedToEnd(keys, entries.Keys, flow.key), entries.Keys + {flow.key})
      modifies `keys, `entries, `evictionCount, `log, `marks
      ensures Telling() && Indexes(keys, entries.Keys)
      ensures keys == LastN(MovedToEnd(old(keys), old(entries.Keys), flow.key), maxEntries)
      ensures |keys| + evictionCount == |MovedToEnd(old(keys), old(entries.Keys), flow.key)| + old(evictionCount)
      ensures log == old(log) + [Upserted(flow, now, flow.key in old(entries))]
      ensures KeptElsewhere(old(entries), entries, flow.key)
      ensures flow.key in entries ==> fresh(entries[flow.key])
    {
      Put(flow, now);
      ghost var mid := entries;
      Evict();
      KeptInTwoSteps(old(entries), mid, entries, flow.key);
    }

    method Upsert(flow: Flow, now: int)
      requires Valid()
      modifies this
      ensures Valid() && log == old(log) + [Upserted(flow, now, flow.key in old(entries))]
      ensures KeptElsewhere(old(entries), entries, flow.key)
      ensures flow.key in entries ==> fresh(entries[flow.key])
    {
      ghost var c := Upserted(flow, now, flow.key in entries);
      Touch(keys, entries.Keys, TouchedKeys(log), maxEntries, flow.key);
      FoundIfRecentNext(keys, entries.Keys, log, maxEntries, c);
      OneMoreCall(log, c, flow.key);
      PutAndEvict(flow, now);
      CacheAfterTouch(old(keys), old(entries.Keys), TouchedKeys(old(log)), maxEntries, flow.key, keys, entries.Keys);
    }

    method Get(key: Key, now: int) returns (entry: FlowEntry?)
      requires Valid()
      modifies this, if key in entries then {entries[key]} else {}
      ensures Valid() && entries == old(entries) && log == old(log) + [Read(key, now, key in old(entries))]
      ensures entry == if key in entries then entries[key] else null
    {
      entry := if key in entries then entries[key] else null;
      ghost var c := Read(key, now, entry != null);
      FoundIfRecentNext(keys, entries.Keys, log, maxEntries, c);
      OneMoreCall(log, c, key);
      OthersStillTell(c, if entry != null then {key} else {});
      if entry != null {
        Hit(entry, now);
      }
      log := log + [c];
    }

    /** What a lookup that finds its entry does to the map. */
    method Hit(entry: FlowEntry, now: int)
      requires entry.key in entries && entries[entry.key] == entry && entry.key in marks
      requires EntryTells(entry, entry.key, log, marks[entry.key])
      requires IsCacheOf(keys, entries.Keys, TouchedKeys(log), maxEntries)
      modifies `keys, `entries, `marks, entry
      ensures entries == old(entries) && |keys| == |old(keys)|
      ensures IsCacheOf(keys, entries.Keys, TouchedKeys(log) + [entry.key], maxEntries)
      ensures marks.Keys == old(marks.Keys) && forall k | k in marks && k != entry.key :: marks[k] == old(marks)[k]
      ensures EntryTells(entry, entry.key, log + [Read(entry.key, now, true)], marks[entry.key])
    {
      var key := entry.key;
      CacheAfterHit(keys, entries.Keys, TouchedKeys(log), maxEntries, key);
      TellsRead(key, entry.flow, entry.firstSeen, entry.lastSeen, entry.samples, log, marks[key], now);
      PutBack(entries, key);
      keys, entries := Without(keys, key), entries - {key};
      entry.lastSeen := now;
      keys, entries := keys + [key], entries[key := entry];
      marks := marks[key := marks[key].(touched := |log|)];
    }

    method Clear()
      modifies this
      ensures Valid() && log == [] && keys == [] && evictionCount == 0
    {
      keys, entries, evictionCount := [], map[], 0;
      log, marks := [], map[];
    }

    /** What an entry shows of its connection: when it was last inserted, by the last upsert that did not find it; the flow of
        its last upsert; when it was last touched; and the window of all that has been read of it since it was inserted. */
    lemma EntryIsItsHistory(k: Key) returns (m: Marks)
      requires Valid() && k in entries
      ensures var e := entries[k];
              && e.key == k && m.inserted < |log| && m.updated < |log| && m.touched < |log|
              && (var c := log[m.inserted]; c.Upserted? && c.flow.key == k && !c.found && e.firstSeen == c.at)
              && (forall j | m.inserted < j < |log| && log[j].Upserted? && log[j].flow.key == k :: log[j].found)
              && (var c := log[m.updated]; c.Upserted? && c.flow.key == k && e.flow == c.flow)
              && (forall j | m.updated < j < |log| && log[j].Upserted? :: log[j].flow.key != k)
              && (var c := log[m.touched]; e.lastSeen == c.at && if c.Upserted? then c.flow.key == k else c.key == k && c.found)
              && (forall j | m.touched < j < |log| ::
                    if log[j].Upserted? then log[j].flow.key != k else log[j].key == k ==> !log[j].found)
              && e.samples == Window(FlatMap((c: Call) => if c.Upserted? && c.flow.key == k then [c.flow.reading] else [],
                                             log[m.inserted..]))
    {
      m := marks[k];
      var e := entries[k];
      TellsWhen(k, e.flow, e.firstSeen, e.lastSeen, e.samples, log, m);
      TellsWindow(k, e.flow, e.firstSeen, e.lastSeen, e.samples, log, m);
    }

    /** A call has found its key exactly if the key was then among the most recently touched ones that fit. */
    lemma FoundExactlyWhen(i: nat)
      requires Valid() && i < |log|
      ensures log[i].found <==> KeyOf(log[i]) in LastN(Recency(TouchedKeys(log[..i])), maxEntries)
    {
      assert Unlocked(WindowSeal);
    }

    /** The keys stored are the most recently touched ones that fit, in order; and what is stored, and what was evicted, are
        together the insertions. */
    lemma StoredAreMostRecent()
      requires Valid()
      ensures keys == LastN(Recency(TouchedKeys(log)), maxEntries) && Lists(keys, entries.Keys)
      ensures |keys| + evictionCount == |Insertions(log)|
    {
      assert Unlocked(CacheSeal);
    }
  }
}
