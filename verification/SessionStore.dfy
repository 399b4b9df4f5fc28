/** The in-memory session store (pkg/auth/session/store.go). One call is one atomic step; `now` and the other
    instants are the readings the call takes from the injected clock. */
module SessionStore {
  import opened Wrappers
  import opened Credentials
  import opened StoreModel
  import opened Sessions
  import opened Transports

  /** The error of Create: the random source failed, or ErrTooManySessions. */
  datatype CreateError = NoRandomness | TooManySessions

  type Books = map<Session, Entry>

  type Bytes = map<array<byte>, seq<byte>>

  type Owners = map<array<byte>, Session>

  /** Who holds which array: a session on the books owns all its material, and an owned array is held by its owner. */
  ghost predicate Ledger(books: Books, owner: Owners, accepted: Bytes) {
    forall k: Seal {:trigger Unlocked(k)} :: k.StoreSeal? && Unlocked(k) ==>
      && (forall s, a | s in books && a in books[s].held :: a in owner && owner[a] == s)
      && (forall a | a in owner :: a in accepted && owner[a] in books && a in books[owner[a]].held)
  }

  /** The map is keyed by session ID and stores sessions on the books; `table` is what it stands for in the model. */
  ghost predicate Indexed(sessions: map<SessionId, Session>, table: Table, books: Books) {
    forall k: Seal {:trigger Unlocked(k)} :: k.StoreSeal? && Unlocked(k) ==>
      && table.Keys == sessions.Keys
      && forall id | id in sessions ::
           sessions[id].id == id && sessions[id] in books && books[sessions[id]].view == table[id]
  }

  ghost predicate Kept(books: Books)
    reads books.Keys
  {
    forall k: Seal {:trigger Unlocked(k)} :: k.StoreSeal? && Unlocked(k) ==>
      forall s | s in books :: s.Matches(books[s])
  }

  /** What somebody holds has the bytes it was accepted with; what nobody holds is zero. */
  ghost predicate Conserved(owner: Owners, accepted: Bytes)
    reads accepted.Keys
  {
    forall k: Seal {:trigger Unlocked(k)} :: k.StoreSeal? && Unlocked(k) ==>
      forall a | a in accepted :: if a in owner then a[..] == accepted[a] else Erased(a)
  }

  /** A session that is gone was zeroed exactly once and holds no material; `lingering` are those of which a request that
      still had them has wanted a transport since. */
  ghost predicate Buried(removed: set<Session>, lingering: set<Session>)
    reads removed
  {
    forall k: Seal {:trigger Unlocked(k)} :: k.StoreSeal? && Unlocked(k) ==>
      && lingering <= removed
      && forall s <- removed :: s.Retired() && (s in lingering <==> s.late != [])
  }

  /** The sessions that a map has under some IDs. */
  ghost function Named(sessions: map<SessionId, Session>, ids: set<SessionId>): set<Session> {
    set id | id in ids && id in sessions :: sessions[id]
  }

  /** What the store loses when these IDs go: exactly their sessions, and those are then among the ones that were zeroed. */
  ghost predicate Dropped(sessions: map<SessionId, Session>, removed: set<Session>, ids: set<SessionId>,
                          sessions': map<SessionId, Session>, removed': set<Session>)
  {
    forall k: Seal {:trigger Unlocked(k)} :: k.DropSeal? && Unlocked(k) ==>
      sessions' == sessions - ids && removed' == removed + Named(sessions, ids)
  }

  /** Making room for a login under capKey takes the table m to m'. */
  ghost predicate MakesRoom(o: Options, m: Table, capKey: string, now: int, displaced: set<SessionId>, reclaimed: set<SessionId>,
                            m': Table)
  {
    forall k: Seal {:trigger Unlocked(k)} :: k.RoomSeal? && Unlocked(k) ==>
      GiveWay(o, m, capKey, now, displaced, reclaimed) && m' == m - displaced - reclaimed
  }

  /** Opens, sealed. */
  ghost predicate Admits(o: Options, m: Table, id: SessionId, spec: Spec, now: int,
                         displaced: set<SessionId>, reclaimed: set<SessionId>, m': Table)
  {
    forall k: Seal {:trigger Unlocked(k)} :: k.RoomSeal? && Unlocked(k) ==>
      Opens(o, m, id, spec, now, displaced, reclaimed, m')
  }

  /** RefusesLogin, sealed. */
  ghost predicate Refuses(o: Options, m: Table, capKey: string, now: int) {
    forall k: Seal {:trigger Unlocked(k)} :: k.RoomSeal? && Unlocked(k) ==> RefusesLogin(o, m, capKey, now)
  }

  lemma AdmitsAfterRoom(o: Options, m: Table, id: SessionId, spec: Spec, now: int,
                        displaced: set<SessionId>, reclaimed: set<SessionId>, m': Table)
    requires MakesRoom(o, m, PerUserCapKey(spec), now, displaced, reclaimed, m')
    ensures Admits(o, m, id, spec, now, displaced, reclaimed, m'[id := Opened(o, spec, now)])
  {
    assert Unlocked(RoomSeal);
  }

  lemma RefusesMeans(o: Options, m: Table, capKey: string, now: int)
    ensures Refuses(o, m, capKey, now) <==> RefusesLogin(o, m, capKey, now)
  {
    assert Unlocked(RoomSeal);
  }

  lemma AdmitsMeans(o: Options, m: Table, id: SessionId, spec: Spec, now: int,
                    displaced: set<SessionId>, reclaimed: set<SessionId>, m': Table)
    requires Admits(o, m, id, spec, now, displaced, reclaimed, m')
    ensures Opens(o, m, id, spec, now, displaced, reclaimed, m')
  {
    assert Unlocked(RoomSeal);
  }

  lemma DroppedMeans(sessions: map<SessionId, Session>, removed: set<Session>, ids: set<SessionId>,
                     sessions': map<SessionId, Session>, removed': set<Session>)
    ensures Dropped(sessions, removed, ids, sessions', removed') <==>
              sessions' == sessions - ids && removed' == removed + Named(sessions, ids)
  {
    assert Unlocked(DropSeal);
  }

  lemma DroppedNone(sessions: map<SessionId, Session>, removed: set<Session>)
    ensures Dropped(sessions, removed, {}, sessions, removed)
  {
    assert sessions - {} == sessions;
  }

  lemma DroppedOne(sessions: map<SessionId, Session>, removed: set<Session>, id: SessionId)
    ensures Named(sessions, {id}) == if id in sessions then {sessions[id]} else {}
    ensures Dropped(sessions, removed, {id}, sessions - {id}, removed + if id in sessions then {sessions[id]} else {})
  {
  }

  lemma DroppedNobody(sessions: map<SessionId, Session>, removed: set<Session>, id: SessionId)
    requires id !in sessions
    ensures Dropped(sessions, removed, {id}, sessions, removed)
  {
    DroppedOne(sessions, removed, id);
    assert sessions - {id} == sessions;
  }

  lemma DroppedTwice(a: map<SessionId, Session>, ra: set<Session>, x: set<SessionId>, b: map<SessionId, Session>, rb: set<Session>,
                     y: set<SessionId>, c: map<SessionId, Session>, rc: set<Session>)
    requires Dropped(a, ra, x, b, rb) && Dropped(b, rb, y, c, rc)
    ensures Dropped(a, ra, x + y, c, rc)
  {
    assert Unlocked(DropSeal);
    assert Named(a, x + y) == Named(a, x) + Named(a - x, y);
    assert a - (x + y) == a - x - y;
  }

  /** What a lookup comes to. */
  lemma LookedUp(before: map<SessionId, Session>, gone: set<Session>, live: bool, id: SessionId,
                 after: map<SessionId, Session>, gone': set<Session>)
    requires Dropped(before, gone, if live then {} else {id}, after, gone')
    ensures after == if live then before else before - {id}
    ensures gone' == if live then gone else gone + Named(before, {id})
  {
    assert Unlocked(DropSeal);
    assert before - {} == before;
  }

  /** What a login that displaces some sessions and reclaims others comes to. */
  lemma LoggedIn(before: map<SessionId, Session>, gone: set<Session>, displaced: set<SessionId>, reclaimed: set<SessionId>,
                 kept: map<SessionId, Session>, id: SessionId, s: Session?, after: map<SessionId, Session>, gone': set<Session>)
    requires Dropped(before, gone, displaced + reclaimed, kept, gone')
    requires s == null ==> displaced + reclaimed == {}
    requires after == if s == null then kept else kept[id := s]
    ensures gone' == gone + Named(before, displaced + reclaimed)
    ensures s == null ==> after == before && gone' == gone
    ensures s != null ==> after == (before - displaced - reclaimed)[id := s]
  {
    assert Unlocked(DropSeal);
    assert before - {} == before && before - displaced - reclaimed == before - (displaced + reclaimed);
  }

  ghost function Assign(held: set<array<byte>>, s: Session): Owners {
    map a | a in held :: s
  }

  ghost function Contents(held: set<array<byte>>): Bytes
    reads held
  {
    map a | a in held :: a[..]
  }

  /** From `before` to `after` the store took charge of the arrays `incoming`, as they are now. */
  ghost predicate Gained(before: Bytes, after: Bytes, incoming: set<array<byte>>)
    reads incoming
  {
    && after.Keys == before.Keys + incoming
    && (forall a | a in before :: after[a] == before[a])
    && forall a <- incoming :: after[a] == a[..]
  }

  lemma AssignInTwo(owner: Owners, before: set<array<byte>>, incoming: set<array<byte>>, held: set<array<byte>>, s: Session)
    requires incoming <= held <= before + incoming
    ensures owner + Assign(held, s) == owner + Assign(before * held, s) + Assign(incoming, s)
  {
  }

  /** Taking one session off the books takes out exactly its arrays, and they were nobody else's. */
  lemma LedgerWithout(books: Books, owner: Owners, accepted: Bytes, s: Session)
    requires Ledger(books, owner, accepted) && s in books
    ensures Ledger(books - {s}, owner - books[s].held, accepted)
    ensures books[s].held <= owner.Keys <= accepted.Keys
  {
    assert Unlocked(StoreSeal);
    var held := books[s].held;
    forall t, a | t in books - {s} && a in books[t].held
      ensures a in owner - held && (owner - held)[a] == t
    {
      assert owner[a] == t;
    }
    forall a | a in owner - held
      ensures a in accepted && owner[a] in books - {s} && a in books[owner[a]].held
    {
      assert owner[a] in books && a in books[owner[a]].held;
    }
  }

  /** Putting a session on the books whose arrays nobody owns. */
  lemma LedgerWith(books: Books, owner: Owners, accepted: Bytes, s: Session, e: Entry, accepted': Bytes)
    requires Ledger(books, owner, accepted) && s !in books && e.held !! owner.Keys
    requires accepted.Keys + e.held <= accepted'.Keys
    ensures Ledger(books[s := e], owner + Assign(e.held, s), accepted')
  {
    assert Unlocked(StoreSeal);
    var owner' := owner + Assign(e.held, s);
    forall a | a in owner'
      ensures a in accepted' && owner'[a] in books[s := e] && a in books[s := e][owner'[a]].held
    {
      if a !in e.held {
        assert owner[a] in books && a in books[owner[a]].held;
      }
    }
  }

  lemma GainsContents(before: Bytes, incoming: set<array<byte>>)
    requires incoming !! before.Keys
    ensures Gained(before, before + Contents(incoming), incoming)
  {
  }

  lemma ConservedWith(owner: Owners, accepted: Bytes, s: Session, held: set<array<byte>>)
    requires Conserved(owner, accepted) && held !! accepted.Keys
    ensures Conserved(owner + Assign(held, s), accepted + Contents(held))
  {
    assert Unlocked(StoreSeal);
  }

  lemma LedgerUpdated(books: Books, owner: Owners, accepted: Bytes, s: Session, e: Entry)
    requires Ledger(books, owner, accepted) && s in books && e.held == books[s].held
    ensures Ledger(books[s := e], owner, accepted)
  {
    assert Unlocked(StoreSeal);
  }

  lemma GainedContents(before: Bytes, after: Bytes, incoming: set<array<byte>>, contents: Bytes)
    requires contents.Keys == incoming && forall a <- incoming :: contents[a] == a[..]
    ensures Gained(before, after, incoming) ==> after == before + contents
  {
  }

  lemma IndexedWith(sessions: map<SessionId, Session>, table: Table, books: Books, s: Session, e: Entry)
    requires Indexed(sessions, table, books) && s.id !in sessions && s !in books
    ensures Indexed(sessions[s.id := s], table[s.id := e.view], books[s := e])
  {
    assert Unlocked(StoreSeal);
  }

  lemma IndexedUpdated(sessions: map<SessionId, Session>, table: Table, books: Books, s: Session, e: Entry)
    requires Indexed(sessions, table, books) && s.id in sessions && sessions[s.id] == s
    ensures Indexed(sessions, table[s.id := e.view], books[s := e])
  {
    assert Unlocked(StoreSeal);
  }

  lemma IndexedWithout(sessions: map<SessionId, Session>, table: Table, books: Books, id: SessionId)
    requires Indexed(sessions, table, books)
    ensures Indexed(sessions - {id}, table - {id}, books)
  {
    assert Unlocked(StoreSeal);
    assert (table - {id}).Keys == (sessions - {id}).Keys;
  }

  // ---------------------------------------------------------------- sessions by age

  ghost function IdsOf(ss: seq<Session>): set<SessionId> {
    set s | s in ss :: s.id
  }

  ghost predicate OldestFirst(ss: seq<Session>)
    reads ss
  {
    forall i, j | 0 <= i < j < |ss| ::
      ss[i].lastSeen < ss[j].lastSeen || (ss[i].lastSeen == ss[j].lastSeen && ss[i].createdAt <= ss[j].createdAt)
  }

  method InsertByAge(sorted: seq<Session>, s: Session) returns (r: seq<Session>)
    requires OldestFirst(sorted)
    ensures OldestFirst(r)
    ensures multiset(r) == multiset(sorted) + multiset{s}
  {
    var k := 0;
    while k < |sorted| && Older(sorted[k].View(), s.View())
      invariant k <= |sorted|
      invariant forall j | 0 <= j < k :: Older(sorted[j].View(), s.View())
    {
      k := k + 1;
    }
    r := sorted[..k] + [s] + sorted[k..];
    assert sorted == sorted[..k] + sorted[k..];
    InsertedInOrder(sorted, s, k);
  }

  lemma InsertedInOrder(sorted: seq<Session>, s: Session, k: nat)
    requires OldestFirst(sorted) && k <= |sorted|
    requires forall j | 0 <= j < k :: Older(sorted[j].View(), s.View())
    requires k < |sorted| ==> !Older(sorted[k].View(), s.View())
    ensures OldestFirst(sorted[..k] + [s] + sorted[k..])
  {
    var r := sorted[..k] + [s] + sorted[k..];
    forall i, j | 0 <= i < j < |r| ensures Older(r[i].View(), r[j].View()) {
      if j > k {
        assert r[j] == sorted[j - 1];
        assert i < k ==> r[i] == sorted[i];
        assert i > k ==> r[i] == sorted[i - 1];
        assert i == k && j > k + 1 ==> Older(sorted[k].View(), sorted[j - 1].View());
      } else {
        assert r[i] == sorted[i];
        assert j < k ==> r[j] == sorted[j];
      }
    }
  }

  /** sort.Slice by (lastSeen, createdAt). */
  method SortOldestFirst(owned: seq<Session>) returns (sorted: seq<Session>)
    ensures forall i, j | 0 <= i < j < |sorted| ::
              sorted[i].lastSeen < sorted[j].lastSeen
              || (sorted[i].lastSeen == sorted[j].lastSeen && sorted[i].createdAt <= sorted[j].createdAt)
    ensures multiset(sorted) == multiset(owned)
  {
    sorted := [];
    for i := 0 to |owned|
      invariant OldestFirst(sorted)
      invariant multiset(sorted) == multiset(owned[..i])
    {
      assert owned[..i + 1] == owned[..i] + [owned[i]];
      sorted := InsertByAge(sorted, owned[i]);
    }
    assert owned[..|owned|] == owned;
  }

  lemma SamePopulation(ss: seq<Session>, tt: seq<Session>)
    requires multiset(ss) == multiset(tt)
    ensures |ss| == |tt| && (forall s :: s in ss <==> s in tt) && IdsOf(ss) == IdsOf(tt)
  {
    assert |multiset(ss)| == |multiset(tt)|;
    assert forall s :: s in ss <==> s in multiset(ss);
    assert forall s :: s in tt <==> s in multiset(tt);
  }

  lemma IdsOfAppend(ss: seq<Session>, s: Session)
    ensures IdsOf(ss + [s]) == IdsOf(ss) + {s.id}
  {
    assert (ss + [s])[|ss|] == s;
    assert forall t <- ss :: t in ss + [s];
  }

  ghost predicate Distinct(ss: seq<Session>) {
    forall i, j | 0 <= i < j < |ss| :: ss[i].id != ss[j].id
  }

  lemma {:induction false} DistinctIds(ss: seq<Session>)
    requires Distinct(ss)
    ensures |IdsOf(ss)| == |ss|
  {
    if ss != [] {
      var init, s := ss[..|ss| - 1], ss[|ss| - 1];
      assert ss == init + [s];
      DistinctIds(init);
      IdsOfAppend(init, s);
      forall t | t in init
        ensures t.id != s.id
      {
        var i :| 0 <= i < |init| && init[i] == t;
        assert ss[i].id != ss[|init|].id;
      }
    }
  }

  lemma {:induction false} IdsBound(ss: seq<Session>)
    ensures |IdsOf(ss)| <= |ss|
  {
    if ss != [] {
      IdsBound(ss[1..]);
      assert IdsOf(ss) == {ss[0].id} + IdsOf(ss[1..]);
    }
  }

  /** If a list of sessions has as many IDs as sessions, so has each of its prefixes. */
  lemma PrefixIds(ss: seq<Session>, n: nat)
    requires |IdsOf(ss)| == |ss| && n <= |ss|
    ensures |IdsOf(ss[..n])| == n
  {
    IdsBound(ss[..n]);
    IdsBound(ss[n..]);
    assert ss == ss[..n] + ss[n..];
    assert IdsOf(ss) == IdsOf(ss[..n]) + IdsOf(ss[n..]);
  }

  ghost function Elements(ids: seq<SessionId>): set<SessionId> {
    set id | id in ids
  }

  lemma ElementsUpTo(ids: seq<SessionId>, i: nat, j: nat)
    requires i <= j <= |ids|
    ensures Elements(ids[..j]) == Elements(ids[..i]) + Elements(ids[i..j])
  {
    assert ids[..j] == ids[..i] + ids[i..j];
  }

  lemma OneMoreId(ss: seq<Session>, k: nat)
    requires k < |ss|
    ensures IdsOf(ss[..k + 1]) == IdsOf(ss[..k]) + {ss[k].id}
  {
    assert ss[..k + 1] == ss[..k] + [ss[k]];
    IdsOfAppend(ss[..k], ss[k]);
  }

  lemma TableMinus(t: Table, x: set<SessionId>, y: set<SessionId>)
    ensures t - (x + y) == t - x - y
  {
  }

  ghost function DeadIds(o: Options, t: Table, now: int): set<SessionId> {
    set id | id in t && !Alive(o, t[id], now)
  }

  ghost function Members(ss: seq<Session>): set<Session> {
    set s | s in ss
  }

  lemma MembersAppend(ss: seq<Session>, s: Session)
    ensures Members(ss + [s]) == Members(ss) + {s}
  {
  }

  lemma OneMoreMember(ss: seq<Session>, k: nat)
    requires k < |ss|
    ensures Members(ss[..k + 1]) == Members(ss[..k]) + {ss[k]}
  {
    assert ss[..k + 1] == ss[..k] + [ss[k]];
    MembersAppend(ss[..k], ss[k]);
  }

  /** Taking these IDs out of the map has taken out these sessions. */
  ghost predicate Unlinked(before: map<SessionId, Session>, ids: set<SessionId>, after: map<SessionId, Session>, evicted: seq<Session>) {
    after == before - ids && Members(evicted) == Named(before, ids)
  }

  lemma OneMoreUnlinked(before: map<SessionId, Session>, ids: set<SessionId>, after: map<SessionId, Session>, evicted: seq<Session>,
                        id: SessionId)
    requires Unlinked(before, ids, after, evicted)
    ensures Unlinked(before, ids + {id}, after - {id}, if id in after then evicted + [after[id]] else evicted)
    ensures id !in after ==> after - {id} == after
  {
    if id in after { MembersAppend(evicted, after[id]); }
    assert id !in after ==> Named(before, ids + {id}) == Named(before, ids);
    assert id in after ==> Named(before, ids + {id}) == Named(before, ids) + {after[id]};
  }

  lemma ElementsAppend(ids: seq<SessionId>, id: SessionId)
    ensures Elements(ids + [id]) == Elements(ids) + {id}
  {
  }

  /** A run of the model that ends in the table t. */
  ghost predicate RunTo(o: Options, states: seq<State>, log: seq<Event>, t: Table) {
    states != [] &&
    forall k: Seal {:trigger Unlocked(k)} :: k.RunSeal? && Unlocked(k) ==>
      o.Sound() && IsRun(o, states, log) && t == states[|log|].sessions
  }

  /** One more event: e takes the table t, after which the IDs `used` have been drawn, to the table t'. */
  ghost predicate Follows(o: Options, t: Table, used: set<SessionId>, e: Event, t': Table, used': set<SessionId>) {
    forall k: Seal {:trigger Unlocked(k)} :: k.RunSeal? && Unlocked(k) ==>
      Step(o, State(t, used), e, State(t', used'))
  }

  lemma GotFollows(o: Options, t: Table, used: set<SessionId>, id: SessionId, at: Reads, outcome: RefreshOutcome,
                   result: GetResult, t': Table)
    requires (t', result) == GetTable(o, t, id, at, outcome)
    ensures Follows(o, t, used, Got(id, at, outcome, result), t', used)
  {
  }

  lemma SweptFollows(o: Options, t: Table, used: set<SessionId>, now: int, expired: set<SessionId>)
    requires forall id :: id in expired <==> id in t && !Alive(o, t[id], now)
    ensures t - expired == SweptTable(o, t, now)
    ensures Follows(o, t, used, Swept(now), t - expired, used)
  {
  }

  lemma RefusedFollows(o: Options, t: Table, used: set<SessionId>, id: SessionId, spec: Spec, now: int)
    requires id !in used && Refuses(o, t, PerUserCapKey(spec), now)
    ensures Follows(o, t, used, Refused(id, spec, now), t, used + {id})
  {
    assert Unlocked(RoomSeal);
  }

  lemma CreatedFollows(o: Options, t: Table, used: set<SessionId>, id: SessionId, spec: Spec, now: int,
                       displaced: set<SessionId>, reclaimed: set<SessionId>, t': Table)
    requires id !in used && Admits(o, t, id, spec, now, displaced, reclaimed, t')
    ensures Follows(o, t, used, Created(id, spec, now, displaced, reclaimed), t', used + {id})
  {
    assert Unlocked(RoomSeal);
  }

  lemma RunToNext(o: Options, states: seq<State>, log: seq<Event>, t: Table, e: Event, t': Table, used': set<SessionId>)
    requires RunTo(o, states, log, t) && Follows(o, t, states[|states| - 1].used, e, t', used')
    ensures RunTo(o, states + [State(t', used')], log + [e], t')
  {
    assert Unlocked(RunSeal);
    assert states[|log|] == State(t, states[|states| - 1].used);
    RunExtended(o, states, log, e, State(t', used'));
  }

  class Store {
    const opts: Options
    var sessions: map<SessionId, Session>

    /** Every array of credential material the store ever took charge of, with the bytes it then held. */
    ghost var accepted: Bytes
    /** The session that holds an array. An accepted array with no owner has been erased. */
    ghost var owner: Owners
    /** Sessions that have not been zeroed yet: those in the map and, during a call, those just taken out of it. */
    ghost var books: Books
    /** Sessions that are gone for good. */
    ghost var removed: set<Session>
    /** Those of them on which a transport has been wanted since. */
    ghost var lingering: set<Session>
    /** The fields of the stored sessions, and the run of the model that led to them. */
    ghost var table: Table
    ghost var states: seq<State>
    ghost var log: seq<Event>

    /** Ownership of credential material, which holds at every instruction, even between the removal of a session from
        the map and its zeroing. */
    ghost predicate Owned()
      reads `sessions, `books, `removed, `lingering, `owner, `accepted, `table, books.Keys, removed, accepted.Keys
    {
      && Indexed(sessions, table, books) && Ledger(books, owner, accepted)
      && Kept(books) && Conserved(owner, accepted)
      && books.Keys !! removed && Buried(removed, lingering)
    }

    ghost predicate Stored(s: Session)
      reads `sessions
    {
      s.id in sessions && sessions[s.id] == s
    }

    /** Every session that still holds material is in the map, and the map is the table. */
    ghost predicate Settled()
      reads `sessions, `books, `table
    {
      table.Keys == sessions.Keys && forall s | s in books :: Stored(s)
    }

    ghost function Used(): set<SessionId>
      requires states != []
      reads `states
    {
      states[|states| - 1].used
    }

    /** The recorded run leads to the table t. */
    ghost predicate RunEndsIn(t: Table)
      reads `states, `log
    {
      RunTo(opts, states, log, t)
    }

    ghost predicate Valid()
      reads this, books.Keys, removed, accepted.Keys
    {
      Owned() && Settled() && RunEndsIn(table)
    }

    constructor (opts: Options)
      ensures Valid() && this.opts == SetDefaults(opts)
      ensures sessions == map[] && accepted == map[] && books == map[] && removed == {} && lingering == {} && log == []
    {
      this.opts := SetDefaults(opts);
      sessions, table := map[], map[];
      accepted, owner, books, removed, lingering := map[], map[], map[], {}, {};
      states, log := [EMPTY], [];
    }

    /** Sets the ghost books to values that suit the map as it is now. */
    ghost method Rebook(table': Table, books': Books, removed': set<Session>, owner': Owners, accepted': Bytes)
      requires Indexed(sessions, table', books') && Ledger(books', owner', accepted')
      requires Kept(books') && Conserved(owner', accepted') && books'.Keys !! removed' && Buried(removed', lingering)
      modifies `table, `books, `removed, `owner, `accepted
      ensures Owned()
      ensures table == table' && books == books' && removed == removed' && owner == owner' && accepted == accepted'
    {
      table, books, removed, owner, accepted := table', books', removed', owner', accepted';
    }

    // -------------------------------------------------------------- dropping sessions

    /** delete(st.sessions, id): the session is out of the map, its material still intact. */
    method Unlink(id: SessionId) returns (s: Session)
      requires Owned() && id in sessions
      modifies `sessions, `table
      ensures Owned()
      ensures s == old(sessions)[id] && sessions == old(sessions) - {id} && table == old(table) - {id}
      ensures s in books && s.id == id
    {
      assert Unlocked(StoreSeal);
      s := sessions[id];
      IndexedWithout(sessions, table, books, id);
      sessions := sessions - {id};
      table := table - {id};
    }

    /** s.zero() on a session that is already out of the map. */
    method Wipe(s: Session)
      requires Owned() && s in books && !Stored(s)
      modifies `table, `books, `removed, `owner, `accepted, books.Keys, accepted.Keys
      ensures Owned() && table == old(table) && accepted == old(accepted)
      ensures books == old(books) - {s} && removed == old(removed) + {s}
      ensures s.credential == old(s.credential).Stripped()
    {
      assert s.InService() && s.held == books[s].held by {
        assert Unlocked(StoreSeal) && Unlocked(EntrySeal);
      }
      LedgerWithout(books, owner, accepted, s);
      s.Zero();
      assert Kept(books - {s}) && Buried(removed + {s}, lingering) && Conserved(owner - books[s].held, accepted) by {
        assert Unlocked(StoreSeal);
      }
      Rebook(table, books - {s}, removed + {s}, owner - books[s].held, accepted);
    }

    /** delete(st.sessions, id), and s.zero() if there was such a session. */
    method Drop(id: SessionId)
      requires Owned() && Settled()
      modifies `sessions, `table, `books, `removed, `owner, `accepted, books.Keys, accepted.Keys
      ensures Owned() && Settled() && accepted == old(accepted) && books.Keys <= old(books.Keys)
      ensures Dropped(old(sessions), old(removed), {id}, sessions, removed) && table == old(table) - {id}
      ensures id in old(sessions) ==> old(sessions)[id].credential == old(sessions[id].credential).Stripped()
    {
      DroppedOne(sessions, removed, id);
      if id in sessions {
        var s := Unlink(id);
        Wipe(s);
      }
    }

    // -------------------------------------------------------------- taking charge of credential material

    /** st.sessions[id] = s, for a session that has just been made. */
    method Insert(s: Session, ghost e: Entry)
      requires Owned() && Settled() && s.id !in sessions
      requires s !in books && s !in removed && s.Matches(e) && e.held !! accepted.Keys
      modifies `sessions, `table, `books, `removed, `owner, `accepted
      ensures Owned() && Settled() && removed == old(removed)
      ensures sessions == old(sessions)[s.id := s] && table == old(table)[s.id := e.view]
      ensures Gained(old(accepted), accepted, e.held) && books == old(books)[s := e]
    {
      IndexedWith(sessions, table, books, s, e);
      sessions := sessions[s.id := s];
      ghost var owner', accepted' := owner + Assign(e.held, s), accepted + Contents(e.held);
      ConservedWith(owner, accepted, s, e.held);
      GainsContents(accepted, e.held);
      assert e.held !! owner.Keys && Kept(books[s := e]) by {
        assert Unlocked(StoreSeal);
      }
      LedgerWith(books, owner, accepted, s, e, accepted');
      Rebook(table[s.id := e.view], books[s := e], removed, owner', accepted');
    }

    // -------------------------------------------------------------- bookkeeping of the run

    ghost method Record(before: Table, e: Event, used: set<SessionId>)
      requires Owned() && Settled() && RunEndsIn(before) && Follows(opts, before, Used(), e, table, used)
      modifies `states, `log
      ensures Valid() && log == old(log) + [e] && Used() == used
    {
      RunToNext(opts, states, log, before, e, table, used);
      states, log := states + [State(table, used)], log + [e];
    }

    // -------------------------------------------------------------- the Store interface

    /** Peek: the session as it is recorded, dead or alive; looking does not keep it alive. */
    method Peek(id: SessionId) returns (s: Session?)
      requires Valid()
      ensures s != null <==> id in table
      ensures s != null ==> s.id == id && s.View() == table[id] && s.Coherent()
    {
      s := if id in sessions then sessions[id] else null;
      if s != null {
        HeldIsMaterial(id);
      }
    }

    method Delete(id: SessionId)
      requires Valid()
      modifies this, books.Keys, accepted.Keys
      ensures Valid() && accepted == old(accepted)
      ensures sessions == old(sessions) - {id} && table == old(table) - {id}
      ensures removed == old(removed) + Named(old(sessions), {id}) && lingering == old(lingering)
      ensures id in old(sessions) ==> old(sessions)[id].credential == old(sessions[id].credential).Stripped()
      ensures log == old(log) + [Deleted(id)] && Used() == old(Used()) && books.Keys <= old(books.Keys)
    {
      Drop(id);
      DroppedMeans(old(sessions), old(removed), {id}, sessions, removed);
      assert Step(opts, State(old(table), Used()), Deleted(id), State(table, Used()));
      Record(old(table), Deleted(id), Used());
    }

    // -------------------------------------------------------------- making room for a login

    /** A stored session is what the table says. */
    lemma ViewOf(id: SessionId)
      requires Owned() && Settled() && id in sessions
      ensures sessions[id].View() == table[id] && sessions[id].id == id && sessions[id] in books
    {
      assert Unlocked(StoreSeal) && Unlocked(EntrySeal);
    }

    method SessionsOf(capKey: string) returns (owned: seq<Session>)
      requires Owned() && Settled()
      ensures forall s <- owned :: Stored(s)
      ensures IdsOf(owned) == OwnedBy(table, capKey) && Distinct(owned)
    {
      owned := [];
      var todo := sessions.Keys;
      while todo != {}
        invariant todo <= sessions.Keys
        invariant forall s <- owned :: Stored(s) && s.id !in todo
        invariant IdsOf(owned) == OwnedBy(table, capKey) - todo
        invariant Distinct(owned)
      {
        var id :| id in todo;
        ViewOf(id);
        todo := todo - {id};
        if sessions[id].capKey == capKey {
          IdsOfAppend(owned, sessions[id]);
          owned := owned + [sessions[id]];
        }
      }
    }

    /** If the table lists a user's sessions oldest first, the first n - cap + 1 are the ones to displace. */
    lemma PrefixDisplacesOldest(capKey: string, sorted: seq<Session>, n: nat)
      requires Owned() && Settled() && opts.Sound() && capKey != ""
      requires forall s <- sorted :: Stored(s)
      requires IdsOf(sorted) == OwnedBy(table, capKey) && |sorted| == |OwnedBy(table, capKey)| >= opts.maxSessionsPerUser
      requires OldestFirst(sorted) && n == |sorted| - opts.maxSessionsPerUser + 1
      ensures DisplacesOldest(opts, table, capKey, IdsOf(sorted[..n]))
    {
      var displaced := IdsOf(sorted[..n]);
      PrefixIds(sorted, n);
      assert forall s <- sorted[..n] :: s in sorted;
      forall d, k | d in displaced && k in OwnedBy(table, capKey) - displaced
        ensures Older(table[d], table[k])
      {
        var i :| 0 <= i < n && sorted[i].id == d;
        var s :| s in sorted && s.id == k;
        var j :| 0 <= j < |sorted| && sorted[j] == s;
        assert Stored(sorted[i]) && Stored(sorted[j]);
        ViewOf(d);
        ViewOf(k);
      }
    }

    /** The sessions that a login under capKey has to displace. */
    method ToDisplace(capKey: string) returns (evict: seq<Session>)
      requires Owned() && Settled() && opts.Sound()
      ensures DisplacesOldest(opts, table, capKey, IdsOf(evict))
    {
      evict := [];
      if capKey == "" {
        return;
      }
      var owned := SessionsOf(capKey);
      DistinctIds(owned);
      if |owned| < opts.maxSessionsPerUser {
        return;
      }
      var sorted := SortOldestFirst(owned);
      SamePopulation(owned, sorted);
      PrefixDisplacesOldest(capKey, sorted, |sorted| - opts.maxSessionsPerUser + 1);
      evict := sorted[..|sorted| - opts.maxSessionsPerUser + 1];
    }

    /** enforcePerUserLimitLocked: drops the least recently seen sessions under capKey until there is room for one more. */
    method EnforcePerUserLimit(capKey: string) returns (ghost displaced: set<SessionId>)
      requires Owned() && Settled() && opts.Sound()
      modifies `sessions, `table, `books, `removed, `owner, `accepted, books.Keys, accepted.Keys
      ensures Owned() && Settled() && accepted == old(accepted) && books.Keys <= old(books.Keys)
      ensures DisplacesOldest(opts, old(table), capKey, displaced)
      ensures forall d, k | d in displaced && k in old(table) && k !in displaced && old(table)[k].capKey == capKey ::
                old(table)[d].lastSeen < old(table)[k].lastSeen
                || (old(table)[d].lastSeen == old(table)[k].lastSeen && old(table)[d].createdAt <= old(table)[k].createdAt)
      ensures table == old(table) - displaced
      ensures Dropped(old(sessions), old(removed), displaced, sessions, removed)
    {
      var evict := ToDisplace(capKey);
      DropAll(evict);
      displaced := IdsOf(evict);
    }

    method DropAll(evict: seq<Session>)
      requires Owned() && Settled()
      modifies `sessions, `table, `books, `removed, `owner, `accepted, books.Keys, accepted.Keys
      ensures Owned() && Settled() && accepted == old(accepted) && books.Keys <= old(books.Keys)
      ensures table == old(table) - IdsOf(evict)
      ensures Dropped(old(sessions), old(removed), IdsOf(evict), sessions, removed)
    {
      DroppedNone(sessions, removed);
      assert IdsOf(evict[..0]) == {};
      for k := 0 to |evict|
        invariant Owned() && Settled() && accepted == old(accepted) && books.Keys <= old(books.Keys)
        invariant table == old(table) - IdsOf(evict[..k])
        invariant Dropped(old(sessions), old(removed), IdsOf(evict[..k]), sessions, removed)
      {
        OneMoreId(evict, k);
        TableMinus(old(table), IdsOf(evict[..k]), {evict[k].id});
        ghost var before, gone := sessions, removed;
        Drop(evict[k].id);
        DroppedTwice(old(sessions), old(removed), IdsOf(evict[..k]), before, gone, {evict[k].id}, sessions, removed);
      }
      assert evict[..|evict|] == evict;
    }

    /** evictOneExpiredLocked: drops one session that is no longer alive, if there is one. */
    method EvictOneExpired(now: int) returns (found: bool, ghost reclaimed: set<SessionId>)
      requires Owned() && Settled()
      modifies `sessions, `table, `books, `removed, `owner, `accepted, books.Keys, accepted.Keys
      ensures Owned() && Settled() && accepted == old(accepted) && books.Keys <= old(books.Keys)
      ensures table == old(table) - reclaimed
      ensures found ==> OneDead(opts, old(table), now, reclaimed)
      ensures !found ==> reclaimed == {} && (forall id | id in table :: Alive(opts, table[id], now))
      ensures forall id | id in reclaimed ::
                && id in old(table) && var s := old(table)[id];
                   || now > s.createdAt + opts.maxLifetime || now - s.lastSeen > opts.idleTimeout
                   || (!s.refreshable && s.credential.expiresAt.Some? && now > s.credential.expiresAt.value)
      ensures !found ==> forall id | id in table ::
                && now <= table[id].createdAt + opts.maxLifetime && now - table[id].lastSeen <= opts.idleTimeout
                && (table[id].refreshable || table[id].credential.expiresAt.None? || now <= table[id].credential.expiresAt.value)
      ensures Dropped(old(sessions), old(removed), reclaimed, sessions, removed)
    {
      reclaimed := {};
      DroppedNone(sessions, removed);
      var todo := sessions.Keys;
      while todo != {}
        invariant Owned() && Settled() && accepted == old(accepted)
        invariant sessions == old(sessions) && table == old(table) && removed == old(removed) && reclaimed == {}
        invariant books == old(books)
        invariant todo <= sessions.Keys
        invariant forall id | id in sessions && id !in todo :: Alive(opts, table[id], now)
      {
        var id :| id in todo;
        todo := todo - {id};
        ViewOf(id);
        if !Alive(opts, sessions[id].View(), now) {
          Drop(id);
          reclaimed := {id};
          return true, reclaimed;
        }
      }
      found := false;
    }

    lemma TableSize()
      requires Settled()
      ensures |sessions| == |table|
    {
      assert |sessions| == |sessions.Keys| == |table.Keys| == |table|;
    }

    /** The test of the global cap: there is room, or an expired session gives up its place. */
    method MakeRoomForOne(now: int) returns (room: bool, ghost reclaimed: set<SessionId>)
      requires Owned() && Settled()
      modifies `sessions, `table, `books, `removed, `owner, `accepted, books.Keys, accepted.Keys
      ensures Owned() && Settled() && accepted == old(accepted) && books.Keys <= old(books.Keys)
      ensures room ==> ReclaimsOneDead(opts, old(table), now, reclaimed) && table == old(table) - reclaimed
      ensures !room <==> |old(table)| >= opts.maxSessions && forall id | id in old(table) :: Alive(opts, old(table)[id], now)
      ensures !room ==> table == old(table) && reclaimed == {}
      ensures Dropped(old(sessions), old(removed), reclaimed, sessions, removed)
    {
      TableSize();
      DroppedNone(sessions, removed);
      if |sessions| < opts.maxSessions {
        return true, {};
      }
      room, reclaimed := EvictOneExpired(now);
      assert old(table) - {} == old(table);
    }

    lemma Capacity(t: Table)
      requires RunEndsIn(t)
      ensures opts.Sound() && WithinCapacity(opts, t) && t.Keys <= Used()
    {
      assert Unlocked(RunSeal);
      RunWithinCapacity(opts, states, log, |log|);
    }

    lemma NewIdIsFree(id: SessionId)
      requires Settled() && RunEndsIn(table) && id !in Used()
      ensures id !in sessions
    {
      Capacity(table);
    }

    /** The first half of Create: makes room for a login under capKey, or finds that there is none. */
    method MakeRoom(capKey: string, now: int) returns (room: bool, ghost displaced: set<SessionId>, ghost reclaimed: set<SessionId>)
      requires Owned() && Settled() && RunEndsIn(table)
      modifies `sessions, `table, `books, `removed, `owner, `accepted, books.Keys, accepted.Keys
      ensures Owned() && Settled() && accepted == old(accepted) && books.Keys <= old(books.Keys)
      ensures room ==> MakesRoom(opts, old(table), capKey, now, displaced, reclaimed, table)
      ensures !room <==> Refuses(opts, old(table), capKey, now)
      ensures !room ==> table == old(table) && displaced + reclaimed == {}
      ensures Dropped(old(sessions), old(removed), displaced + reclaimed, sessions, removed)
      ensures sessions.Keys <= old(sessions.Keys)
    {
      Capacity(table);
      displaced := EnforcePerUserLimit(capKey);
      RefusalDecided(opts, old(table), capKey, displaced, now);
      RefusesMeans(opts, old(table), capKey, now);
      ghost var before, gone := sessions, removed;
      room, reclaimed := MakeRoomForOne(now);
      DroppedTwice(old(sessions), old(removed), displaced, before, gone, reclaimed, sessions, removed);
      DroppedMeans(old(sessions), old(removed), displaced + reclaimed, sessions, removed);
    }

    /** The second half of Create: the new session enters the map. */
    method Admit(id: SessionId, spec: Spec, now: int) returns (s: Session)
      requires Owned() && Settled() && id !in sessions
      requires spec.Separate() && spec.Material() !! accepted.Keys
      modifies `sessions, `table, `books, `removed, `owner, `accepted
      ensures Owned() && Settled() && fresh(s) && removed == old(removed)
      ensures sessions == old(sessions)[id := s] && table == old(table)[id := Opened(opts, spec, now)]
      ensures Gained(old(accepted), accepted, spec.Material()) && books.Keys == old(books.Keys) + {s}
    {
      s := new Session(id, spec, now, opts.maxLifetime);
      ghost var e := Entry(Opened(opts, spec, now), spec.Material());
      assert s.Matches(e) by {
        assert s.View() == e.view;
      }
      Insert(s, e);
    }

    ghost method RecordCreated(before: Table, id: SessionId, spec: Spec, now: int,
                               displaced: set<SessionId>, reclaimed: set<SessionId>)
      requires Owned() && Settled() && RunEndsIn(before) && id !in Used()
      requires Admits(opts, before, id, spec, now, displaced, reclaimed, table)
      modifies `states, `log
      ensures Valid()
    {
      CreatedFollows(opts, before, Used(), id, spec, now, displaced, reclaimed, table);
      Record(before, Created(id, spec, now, displaced, reclaimed), Used() + {id});
    }

    method AdmitRecorded(id: SessionId, spec: Spec, now: int, ghost before: Table,
                         ghost displaced: set<SessionId>, ghost reclaimed: set<SessionId>) returns (s: Session)
      requires Owned() && Settled() && RunEndsIn(before) && id !in Used() && id !in sessions
      requires MakesRoom(opts, before, PerUserCapKey(spec), now, displaced, reclaimed, table)
      requires spec.Separate() && spec.Material() !! accepted.Keys
      modifies this
      ensures Valid() && removed == old(removed) && lingering == old(lingering)
      ensures Gained(old(accepted), accepted, spec.Material())
      ensures fresh(s) && books.Keys == old(books.Keys) + {s}
      ensures sessions == old(sessions)[id := s] && Admits(opts, before, id, spec, now, displaced, reclaimed, table)
    {
      AdmitsAfterRoom(opts, before, id, spec, now, displaced, reclaimed, table);
      s := Admit(id, spec, now);
      RecordCreated(before, id, spec, now, displaced, reclaimed);
    }

    method RefuseRecorded(id: SessionId, spec: Spec, now: int)
      requires Owned() && Settled() && RunEndsIn(table) && id !in Used()
      requires Refuses(opts, table, PerUserCapKey(spec), now)
      modifies `states, `log
      ensures Valid()
    {
      RefusedFollows(opts, table, Used(), id, spec, now);
      Record(table, Refused(id, spec, now), Used() + {id});
    }

    method AdmitOrRefuse(room: bool, id: SessionId, spec: Spec, now: int, ghost before: Table,
                         ghost displaced: set<SessionId>, ghost reclaimed: set<SessionId>) returns (s: Session?)
      requires Owned() && Settled() && RunEndsIn(before) && id !in Used() && id !in sessions
      requires room ==> MakesRoom(opts, before, PerUserCapKey(spec), now, displaced, reclaimed, table)
      requires !room ==> table == before && Refuses(opts, before, PerUserCapKey(spec), now)
      requires spec.Separate() && spec.Material() !! accepted.Keys
      modifies this
      ensures Valid() && removed == old(removed) && lingering == old(lingering)
      ensures s == null <==> !room
      ensures sessions == if s == null then old(sessions) else old(sessions)[id := s]
      ensures s == null ==> table == before && accepted == old(accepted)
      ensures s != null ==>
                Admits(opts, before, id, spec, now, displaced, reclaimed, table) && Gained(old(accepted), accepted, spec.Material())
      ensures if s == null then books.Keys == old(books.Keys) else fresh(s) && books.Keys == old(books.Keys) + {s}
    {
      if !room {
        RefuseRecorded(id, spec, now);
        return null;
      }
      s := AdmitRecorded(id, spec, now, before, displaced, reclaimed);
    }

    /** Create, once an ID has been drawn. */
    method CreateWith(id: SessionId, spec: Spec, now: int)
      returns (s: Session?, ghost displaced: set<SessionId>, ghost reclaimed: set<SessionId>, ghost kept: map<SessionId, Session>)
      requires Valid() && id !in Used() && id !in sessions
      requires spec.Separate() && spec.Material() !! accepted.Keys
      modifies this, books.Keys, accepted.Keys
      ensures Valid()
      ensures s == null <==> Refuses(opts, old(table), PerUserCapKey(spec), now)
      ensures s == null ==> table == old(table) && accepted == old(accepted) && displaced + reclaimed == {}
      ensures lingering == old(lingering)
      ensures Dropped(old(sessions), old(removed), displaced + reclaimed, kept, removed)
      ensures sessions == if s == null then kept else kept[id := s]
      ensures s != null ==>
                && Admits(opts, old(table), id, spec, now, displaced, reclaimed, table)
                && id in sessions && sessions[id] == s
                && Gained(old(accepted), accepted, spec.Material())
      ensures if s == null then books.Keys <= old(books.Keys) else fresh(s) && books.Keys <= old(books.Keys) + {s}
    {
      var room;
      room, displaced, reclaimed := MakeRoom(PerUserCapKey(spec), now);
      kept := sessions;
      s := AdmitOrRefuse(room, id, spec, now, old(table), displaced, reclaimed);
    }

    /** Create, told by the table. */
    method CreateOnTable(spec: Spec, random: Option<SessionId>, now: int)
      returns (s: Session?, error: Option<CreateError>, ghost displaced: set<SessionId>, ghost reclaimed: set<SessionId>)
      requires Valid()
      requires random.Some? ==> random.value !in Used()
      requires spec.Separate() && spec.Material() !! accepted.Keys
      modifies this, books.Keys, accepted.Keys
      ensures Valid()
      ensures error == Some(NoRandomness) <==> random == None
      ensures error == Some(TooManySessions) <==>
                random.Some? && RefusesLogin(opts, old(table), PerUserCapKey(spec), now)
      ensures s == null <==> error.Some?
      ensures s == null ==>
                sessions == old(sessions) && table == old(table) && removed == old(removed) && accepted == old(accepted)
      ensures lingering == old(lingering)
      ensures removed == old(removed) + Named(old(sessions), displaced + reclaimed)
      ensures s != null ==> sessions == (old(sessions) - displaced - reclaimed)[random.value := s]
      ensures s != null ==>
                && Opens(opts, old(table), random.value, spec, now, displaced, reclaimed, table)
                && random.value in sessions && sessions[random.value] == s
                && Gained(old(accepted), accepted, spec.Material())
      ensures fresh(books.Keys - old(books.Keys))
    {
      if random == None {
        return null, Some(NoRandomness), {}, {};
      }
      RefusesMeans(opts, table, PerUserCapKey(spec), now);
      NewIdIsFree(random.value);
      ghost var kept;
      s, displaced, reclaimed, kept := CreateWith(random.value, spec, now);
      if s != null {
        AdmitsMeans(opts, old(table), random.value, spec, now, displaced, reclaimed, table);
      }
      LoggedIn(old(sessions), old(removed), displaced, reclaimed, kept, random.value, s, sessions, removed);
      error := if s == null then Some(TooManySessions) else None;
    }

    lemma Capped()
      requires RunEndsIn(table)
      ensures CappedByUser(table)
    {
      assert Unlocked(RunSeal);
      RunCappedByUser(opts, states, log, |log|);
    }

    /** Create: `random` is the ID drawn from the random source, if it did not fail. A login is refused exactly when the store
        is full, every session in it is in time, and the user has none to give up; then it has evicted nothing and leaves the
        spec's material to the caller. Otherwise it costs the user's own stalest sessions, as many as are too many, and at most
        one dead one of others. */
    method Create(spec: Spec, random: Option<SessionId>, now: int)
      returns (s: Session?, error: Option<CreateError>, ghost displaced: set<SessionId>, ghost reclaimed: set<SessionId>)
      requires Valid()
      requires random.Some? ==> random.value !in Used()
      requires spec.Separate() && spec.Material() !! accepted.Keys
      modifies this, books.Keys, accepted.Keys
      ensures Valid()
      ensures error == Some(NoRandomness) <==> random == None
      ensures error == Some(TooManySessions) <==>
                && random.Some? && |old(table)| >= opts.maxSessions
                && (spec.mode.Admin? || spec.username == "" || |SessionsOfUser(old(table), spec.username)| < opts.maxSessionsPerUser)
                && forall id | id in old(table) ::
                     var t := old(table)[id];
                     && now <= t.createdAt + opts.maxLifetime && now - t.lastSeen <= opts.idleTimeout
                     && (t.refreshable || t.credential.expiresAt.None? || now <= t.credential.expiresAt.value)
      ensures s == null <==> error.Some?
      ensures s == null ==>
                sessions == old(sessions) && table == old(table) && removed == old(removed) && accepted == old(accepted)
      ensures lingering == old(lingering)
      ensures removed == old(removed) + Named(old(sessions), displaced + reclaimed)
      ensures s != null ==> sessions == (old(sessions) - displaced - reclaimed)[random.value := s]
      ensures s != null ==>
                && Opens(opts, old(table), random.value, spec, now, displaced, reclaimed, table)
                && random.value in sessions && sessions[random.value] == s
                && Gained(old(accepted), accepted, spec.Material())
      ensures s != null ==> displaced <= SessionsOfUser(old(table), spec.username)
      ensures s != null ==> forall d, k | d in displaced && k in SessionsOfUser(old(table), spec.username) - displaced ::
                old(table)[d].lastSeen < old(table)[k].lastSeen
                || (old(table)[d].lastSeen == old(table)[k].lastSeen && old(table)[d].createdAt <= old(table)[k].createdAt)
      ensures fresh(books.Keys - old(books.Keys))
    {
      Capped();
      RefusalOnFields(opts, table, spec, now);
      s, error, displaced, reclaimed := CreateOnTable(spec, random, now);
      if s != null {
        DisplacedAreStalest(opts, old(table), spec, displaced);
      }
    }

    // -------------------------------------------------------------- looking a session up

    /** applyRefresh: the session takes the renewed credential, and what it no longer holds is erased. */
    method ApplyRefresh(s: Session, outcome: RefreshOutcome)
      requires Owned() && Settled() && s in books && Stored(s)
      requires outcome.Renewed? && outcome.Separate() && outcome.Material() !! accepted.Keys
      modifies `table, `books, `removed, `owner, `accepted, books.Keys, accepted.Keys
      ensures Owned() && Settled() && books.Keys == old(books.Keys) && removed == old(removed)
      ensures table == old(table)[s.id := Renew(opts, old(table)[s.id], outcome)]
      ensures Gained(old(accepted), accepted, outcome.Material())
    {
      ghost var before, view := books[s].held, table[s.id];
      assert s.InService() && s.View() == view && s.held == before by {
        assert Unlocked(StoreSeal) && Unlocked(EntrySeal);
      }
      LedgerWithout(books, owner, accepted, s);
      RenewHeld(s, outcome);
      assert s.View() == Renew(opts, view, outcome);
      BookRenewal(s, before, outcome.Material());
    }

    method RenewHeld(s: Session, outcome: RefreshOutcome)
      requires s.InService() && s in books && s !in removed && books[s].held == s.held <= owner.Keys <= accepted.Keys
      requires Kept(books) && Conserved(owner, accepted) && Buried(removed, lingering)
      requires outcome.Renewed? && outcome.Separate() && outcome.Material() !! accepted.Keys
      modifies s, s.held
      ensures s.InService() && outcome.Material() <= s.held <= books[s].held + outcome.Material()
      ensures Kept(books - {s}) && Buried(removed, lingering)
      ensures Conserved((owner - books[s].held) + Assign(books[s].held * s.held, s), accepted)
      ensures s.View() == Renew(opts, old(s.View()), outcome)
    {
      s.ApplyRefresh(outcome.credential, outcome.refreshToken, opts.maxLifetime);
      assert Kept(books - {s}) && Buried(removed, lingering) by {
        assert Unlocked(StoreSeal);
      }
      assert Unlocked(StoreSeal);
    }

    /** Books the arrays that a session has just taken charge of, and those it has let go of. */
    ghost method BookRenewal(s: Session, before: set<array<byte>>, incoming: set<array<byte>>)
      requires Indexed(sessions, table, books) && s.id in sessions && sessions[s.id] == s && table.Keys == sessions.Keys
      requires s in books && before == books[s].held && Ledger(books - {s}, owner - before, accepted)
      requires before <= accepted.Keys && owner.Keys <= accepted.Keys && incoming !! accepted.Keys
      requires incoming <= s.held <= before + incoming
      requires Conserved((owner - before) + Assign(before * s.held, s), accepted)
      requires Kept(books - {s}) && s.InService() && books.Keys !! removed && Buried(removed, lingering)
      modifies `table, `books, `removed, `owner, `accepted
      ensures Owned() && books.Keys == old(books.Keys) && removed == old(removed)
      ensures table == old(table)[s.id := s.View()]
      ensures Gained(old(accepted), accepted, incoming)
    {
      var e := Entry(s.View(), s.held);
      var owner', accepted' := (owner - before) + Assign(s.held, s), accepted + Contents(incoming);
      LedgerWith(books - {s}, owner - before, accepted, s, e, accepted');
      assert books[s := e] == (books - {s})[s := e];
      IndexedUpdated(sessions, table, books, s, e);
      ConservedWith((owner - before) + Assign(before * s.held, s), accepted, s, incoming);
      AssignInTwo(owner - before, before, incoming, s.held, s);
      assert Kept(books[s := e]) by {
        assert Unlocked(StoreSeal);
      }
      Rebook(table[s.id := e.view], books[s := e], removed, owner', accepted');
    }

    /** The bytes of a slice, none for the nil one. */
    ghost function TokenBytes(b: array?<byte>): seq<byte>
      reads Backing(b)
    {
      if b == null then [] else b[..]
    }

    /** The part of maybeRefresh that calls the provider. `presented` is what the provider is shown; the copy it is shown
        is erased by the end. */
    method CallProvider(s: Session, outcome: RefreshOutcome) returns (ghost presented: seq<byte>, ghost lent: array?<byte>)
      requires Owned() && Settled() && s in books && Stored(s)
      requires outcome.Separate() && outcome.Material() !! accepted.Keys
      modifies `table, `books, `removed, `owner, `accepted, books.Keys, accepted.Keys
      ensures Owned() && Settled() && books.Keys == old(books.Keys) && removed == old(removed)
      ensures table == if outcome.Renewed? then old(table)[s.id := Renew(opts, old(table)[s.id], outcome)] else old(table)
      ensures if outcome.Renewed? then Gained(old(accepted), accepted, outcome.Material()) else accepted == old(accepted)
      ensures presented == old(TokenBytes(s.refreshToken))
      ensures lent != null ==> fresh(lent) && Erased(lent)
    {
      var refreshToken := s.RefreshTokenCopy();
      presented, lent := TokenBytes(refreshToken), refreshToken;
      assert refreshToken != null ==> refreshToken !in accepted && refreshToken !in outcome.Material();
      if outcome.Renewed? {
        ApplyRefresh(s, outcome);
      }
      if refreshToken != null {
        Discard(refreshToken);
      }
    }

    /** zeroBytes on an array the store never took charge of. */
    method Discard(b: array<byte>)
      requires Owned() && b !in accepted
      modifies b
      ensures Owned() && Erased(b)
    {
      ZeroBytes(b);
    }

    /** maybeRefresh: calls the provider if the credential is inside the refresh window both on entry and under the
        refresh lock. */
    method MaybeRefresh(s: Session, at: Reads, outcome: RefreshOutcome) returns (ghost presented: Option<seq<byte>>)
      requires Owned() && Settled() && s in books && Stored(s)
      requires outcome.Separate() && outcome.Material() !! accepted.Keys
      modifies `table, `books, `removed, `owner, `accepted, books.Keys, accepted.Keys
      ensures Owned() && Settled() && books.Keys == old(books.Keys) && removed == old(removed)
      ensures table == old(table)[s.id := AfterRefresh(opts, old(table)[s.id], at, outcome)]
      ensures presented == if Refreshes(old(table)[s.id], at) then Some(old(TokenBytes(s.refreshToken))) else None
      ensures presented.Some? <==>
                && s.refreshable && old(s.credential).expiresAt.Some?
                && at.start + 60 * SECOND >= old(s.credential).expiresAt.value
                && at.recheck + 60 * SECOND >= old(s.credential).expiresAt.value
      ensures if presented.Some? && outcome.Renewed?
              then Gained(old(accepted), accepted, outcome.Material()) else accepted == old(accepted)
    {
      presented := None;
      ViewOf(s.id);
      if NeedsRefresh(s.View(), at.start) && NeedsRefresh(s.View(), at.recheck) {
        ghost var token, lent;
        token, lent := CallProvider(s, outcome);
        presented := Some(token);
      }
    }

    /** s.lastSeen = stamp. */
    method Touch(s: Session, stamp: int)
      requires Owned() && Settled() && s in books && Stored(s)
      modifies `table, `books, `removed, `owner, `accepted, s`lastSeen
      ensures Owned() && Settled() && accepted == old(accepted) && removed == old(removed) && books.Keys == old(books.Keys)
      ensures table == old(table)[s.id := old(table)[s.id].(lastSeen := stamp)]
    {
      assert s.InService() && s.View() == table[s.id] && s.held == books[s].held by {
        assert Unlocked(StoreSeal) && Unlocked(EntrySeal);
      }
      ghost var e := Entry(table[s.id].(lastSeen := stamp), s.held);
      LedgerUpdated(books, owner, accepted, s, e);
      IndexedUpdated(sessions, table, books, s, e);
      s.Touch(stamp);
      assert Kept(books[s := e]) by {
        assert Unlocked(StoreSeal);
      }
      Rebook(table[s.id := e.view], books[s := e], removed, owner, accepted);
    }

    /** The end of Get: a session whose credential has expired for good goes, another one has been seen. */
    method FinishGet(id: SessionId, at: Reads) returns (result: GetResult)
      requires Owned() && Settled() && id in sessions
      modifies `sessions, `table, `books, `removed, `owner, `accepted, books.Keys, accepted.Keys
      ensures Owned() && Settled() && accepted == old(accepted) && books.Keys <= old(books.Keys)
      ensures result == if CredentialExpired(old(table)[id], at.check) then Expired else Live
      ensures table == if result.Live? then old(table)[id := old(table)[id].(lastSeen := at.stamp)] else old(table) - {id}
      ensures Dropped(old(sessions), old(removed), if result.Live? then {} else {id}, sessions, removed)
      ensures result.Live? ==> sessions == old(sessions) && sessions[id].refreshToken == old(sessions[id].refreshToken)
    {
      var s := sessions[id];
      ViewOf(id);
      if CredentialExpired(s.View(), at.check) {
        Drop(id);
        result := Expired;
      } else {
        Touch(s, at.stamp);
        DroppedNone(sessions, removed);
        result := Live;
      }
    }

    /** Get on a session that is in the map. */
    method GetStored(id: SessionId, at: Reads, outcome: RefreshOutcome) returns (result: GetResult, ghost presented: Option<seq<byte>>)
      requires Owned() && Settled() && id in sessions
      requires outcome.Separate() && outcome.Material() !! accepted.Keys
      modifies `sessions, `table, `books, `removed, `owner, `accepted, books.Keys, accepted.Keys, outcome.Material()
      ensures Owned() && Settled() && books.Keys <= old(books.Keys)
      ensures (table, result) == GetTable(opts, old(table), id, at, outcome)
      ensures Dropped(old(sessions), old(removed), if result.Live? then {} else {id}, sessions, removed)
      ensures presented == if Alive(opts, old(table)[id], at.start) && Refreshes(old(table)[id], at)
                           then Some(old(TokenBytes(sessions[id].refreshToken))) else None
      ensures accepted == if presented.Some? && outcome.Renewed? then old(accepted + Contents(outcome.Material())) else old(accepted)
    {
      var s := sessions[id];
      ViewOf(id);
      if !Alive(opts, s.View(), at.start) {
        Drop(id);
        return Expired, None;
      }
      ghost var contents := Contents(outcome.Material());
      presented := MaybeRefresh(s, at, outcome);
      GainedContents(old(accepted), accepted, outcome.Material(), contents);
      ghost var refreshed := table;
      result := FinishGet(id, at);
      GetTableInSteps(opts, old(table), id, at, outcome, refreshed);
    }

    /** Get, told by the table. */
    method GetOnTable(id: SessionId, at: Reads, outcome: RefreshOutcome)
      returns (result: GetResult, s: Session?, ghost presented: Option<seq<byte>>)
      requires Valid()
      requires outcome.Separate() && outcome.Material() !! accepted.Keys
      modifies this, books.Keys, accepted.Keys, outcome.Material()
      ensures Valid() && books.Keys <= old(books.Keys)
      ensures (table, result) == GetTable(opts, old(table), id, at, outcome)
      ensures if result.Live? then id in sessions && s == sessions[id] else s == null
      ensures sessions == if result.Live? then old(sessions) else old(sessions) - {id}
      ensures removed == if result.Live? then old(removed) else old(removed) + Named(old(sessions), {id})
      ensures lingering == old(lingering)
      ensures log == old(log) + [Got(id, at, outcome, result)]
      ensures presented == if id in old(table) && Alive(opts, old(table)[id], at.start) && Refreshes(old(table)[id], at)
                           then Some(old(TokenBytes(sessions[id].refreshToken))) else None
      ensures accepted == if presented.Some? && outcome.Renewed? then old(accepted + Contents(outcome.Material())) else old(accepted)
    {
      presented := None;
      if id !in sessions {
        result := NotFound;
        DroppedNobody(sessions, removed, id);
      } else {
        result, presented := GetStored(id, at, outcome);
      }
      LookedUp(old(sessions), old(removed), result.Live?, id, sessions, removed);
      GotFollows(opts, old(table), Used(), id, at, outcome, result, table);
      Record(old(table), Got(id, at, outcome, result), Used());
      s := if id in sessions && result.Live? then sessions[id] else null;
    }

    /** Get: the session if it is usable, its credential renewed if it was about to expire, and last-seen bumped. The provider
        is called exactly for a stored session that is in time, can be renewed, and whose credential runs out within 60 seconds
        of both readings; if it renews the credential, the session holds what it gave, and otherwise what it held. */
    method Get(id: SessionId, at: Reads, outcome: RefreshOutcome)
      returns (result: GetResult, s: Session?, ghost presented: Option<seq<byte>>)
      requires Valid()
      requires outcome.Separate() && outcome.Material() !! accepted.Keys
      modifies this, books.Keys, accepted.Keys, outcome.Material()
      ensures Valid() && books.Keys <= old(books.Keys)
      ensures (table, result) == GetTable(opts, old(table), id, at, outcome)
      ensures if result.Live? then id in sessions && s == sessions[id] else s == null
      ensures sessions == if result.Live? then old(sessions) else old(sessions) - {id}
      ensures removed == if result.Live? then old(removed) else old(removed) + Named(old(sessions), {id})
      ensures lingering == old(lingering)
      ensures log == old(log) + [Got(id, at, outcome, result)]
      ensures presented.Some? <==>
                && id in old(table) && var t := old(table)[id];
                   && at.start <= t.createdAt + opts.maxLifetime && at.start - t.lastSeen <= opts.idleTimeout
                   && t.refreshable && t.credential.expiresAt.Some?
                   && at.start + 60 * SECOND >= t.credential.expiresAt.value
                   && at.recheck + 60 * SECOND >= t.credential.expiresAt.value
      ensures presented.Some? ==> presented.value == old(TokenBytes(sessions[id].refreshToken))
      ensures s != null ==>
                && s.credential == (if presented.Some? && outcome.Renewed? then outcome.credential else old(sessions[id].credential))
                && s.refreshToken == (if presented.Some? && outcome.Renewed? && outcome.refreshToken != null
                                      then outcome.refreshToken else old(sessions[id].refreshToken))
                && s.lastSeen == at.stamp
                && (s.credential.expiresAt.None? || at.check <= s.credential.expiresAt.value)
      ensures accepted == if presented.Some? && outcome.Renewed? then old(accepted + Contents(outcome.Material())) else old(accepted)
    {
      if id in sessions {
        HeldIsMaterial(id);
        GetOnFields(opts, table, id, at, outcome);
      }
      result, s, presented := GetOnTable(id, at, outcome);
      if s != null {
        HeldIsMaterial(id);
      }
    }

    // -------------------------------------------------------------- transports

    /** A session that a request can have, stored or gone, has a coherent transport cache. */
    lemma KnownIsCoherent(s: Session)
      requires Valid() && (s in books || s in removed)
      ensures s.Coherent()
    {
      assert Unlocked(StoreSeal) && Unlocked(EntrySeal) && Unlocked(SessionSeal);
    }

    /** What a request that has a session knows of it: it is in service, or it has been zeroed. */
    lemma ServingOrRetired(s: Session)
      requires Kept(books) && Buried(removed, lingering) && (s in books || s in removed)
      ensures s in books ==> s.InService() && s.View() == books[s].view && s.held == books[s].held
      ensures s in removed ==> s.Retired()
    {
      assert Unlocked(StoreSeal) && Unlocked(EntrySeal);
    }

    method KnownTransportFor(s: Session, key: string, factory: ClientFactory, pemOk: bool) returns (rt: Option<RoundTripper>)
      requires Kept(books) && Buried(removed, lingering) && books.Keys !! removed && (s in books || s in removed)
      requires BuiltFor(key, factory)
      modifies s`transports, s`cleanups, s`built, s`serial, s`late
      ensures Kept(books) && Buried(removed, lingering + if s in books then {} else {s})
      ensures Answers(old(s.transports), key, factory, pemOk, s.credential, rt, s.transports)
      ensures s in removed ==> s.late == old(s.late) + [Attempt(key, pemOk)]
    {
      ServingOrRetired(s);
      rt := s.KnownTransportFor(key, factory, pemOk);
      if s in books {
        assert s.Matches(books[s]);
        assert Kept(books) by { assert Unlocked(StoreSeal); }
        assert lingering + {} == lingering;
      } else {
        assert Buried(removed, lingering + if s in books then {} else {s}) by {
          assert Unlocked(StoreSeal);
        }
      }
    }

    /** transportFor on a session that a request has, stored or not. On one that is gone, the transport is built and cached all
        the same, from what is left of the credential. */
    method TransportFor(s: Session, key: string, factory: ClientFactory, pemOk: bool) returns (rt: Option<RoundTripper>)
      requires Valid() && (s in books || s in removed) && BuiltFor(key, factory)
      modifies `lingering, s`transports, s`cleanups, s`built, s`serial, s`late
      ensures Valid()
      ensures Answers(old(s.transports), key, factory, pemOk, s.credential, rt, s.transports)
      ensures s in removed ==> s.late == old(s.late) + [Attempt(key, pemOk)]
      ensures lingering == old(lingering) + if s in books then {} else {s}
    {
      rt := KnownTransportFor(s, key, factory, pemOk);
      lingering := lingering + if s in books then {} else {s};
    }

    // -------------------------------------------------------------- sweeping

    /** The first pass of doGC: the IDs of the sessions that are no longer alive. */
    method ExpiredIds(now: int) returns (expired: seq<SessionId>)
      requires Owned() && Settled()
      ensures forall id :: id in expired <==> id in table && !Alive(opts, table[id], now)
    {
      expired := [];
      var todo := sessions.Keys;
      while todo != {}
        invariant todo <= sessions.Keys
        invariant forall id :: id in expired <==> id in table && id !in todo && !Alive(opts, table[id], now)
      {
        var id :| id in todo;
        todo := todo - {id};
        ViewOf(id);
        if !Alive(opts, sessions[id].View(), now) {
          expired := expired + [id];
        }
      }
    }

    /** One turn of the loop over a batch. */
    method UnlinkNext(id: SessionId, before: seq<Session>) returns (evicted: seq<Session>)
      requires Owned() && table.Keys == sessions.Keys
      requires forall s | s in books :: Stored(s) || s in before
      requires Distinct(before) && forall s <- before :: s in books && s.id !in sessions
      modifies `sessions, `table
      ensures Owned() && table == old(table) - {id} && table.Keys == sessions.Keys
      ensures sessions == old(sessions) - {id}
      ensures evicted == if id in old(sessions) then before + [old(sessions)[id]] else before
      ensures forall s | s in books :: Stored(s) || s in evicted
      ensures Distinct(evicted) && forall s <- evicted :: s in books && s.id !in sessions
    {
      evicted := before;
      if id in sessions {
        var s := Unlink(id);
        evicted := evicted + [s];
      } else {
        assert sessions - {id} == sessions && table - {id} == table;
      }
    }

    /** One batch under the store lock: the sessions named are out of the map, their material still intact. */
    method UnlinkBatch(ids: seq<SessionId>) returns (evicted: seq<Session>)
      requires Owned() && Settled()
      modifies `sessions, `table
      ensures Owned() && table == old(table) - Elements(ids) && table.Keys == sessions.Keys
      ensures Unlinked(old(sessions), Elements(ids), sessions, evicted)
      ensures forall s | s in books :: Stored(s) || s in evicted
      ensures Distinct(evicted) && forall s <- evicted :: s in books && s.id !in sessions
    {
      evicted := [];
      for k := 0 to |ids|
        invariant Owned() && table == old(table) - Elements(ids[..k]) && table.Keys == sessions.Keys
        invariant Unlinked(old(sessions), Elements(ids[..k]), sessions, evicted)
        invariant forall s | s in books :: Stored(s) || s in evicted
        invariant Distinct(evicted) && forall s <- evicted :: s in books && s.id !in sessions
      {
        ElementsAppend(ids[..k], ids[k]);
        assert ids[..k + 1] == ids[..k] + [ids[k]];
        OneMoreUnlinked(old(sessions), Elements(ids[..k]), sessions, evicted, ids[k]);
        evicted := UnlinkNext(ids[k], evicted);
      }
      assert ids[..|ids|] == ids;
    }

    /** Zeroing the batch, outside the store lock. */
    method WipeBatch(evicted: seq<Session>)
      requires Owned() && table.Keys == sessions.Keys
      requires forall s | s in books :: Stored(s) || s in evicted
      requires Distinct(evicted) && forall s <- evicted :: s in books && s.id !in sessions
      modifies `table, `books, `removed, `owner, `accepted, books.Keys, accepted.Keys
      ensures Owned() && Settled() && table == old(table) && accepted == old(accepted) && books.Keys <= old(books.Keys)
      ensures removed == old(removed) + Members(evicted)
    {
      for k := 0 to |evicted|
        invariant Owned() && table == old(table) && accepted == old(accepted)
        invariant books == old(books) - Members(evicted[..k])
        invariant removed == old(removed) + Members(evicted[..k])
      {
        OneMoreMember(evicted, k);
        Wipe(evicted[k]);
      }
      assert evicted[..|evicted|] == evicted;
    }

    method SweepBatch(ids: seq<SessionId>)
      requires Owned() && Settled()
      modifies `sessions, `table, `books, `removed, `owner, `accepted, books.Keys, accepted.Keys
      ensures Owned() && Settled() && accepted == old(accepted) && books.Keys <= old(books.Keys)
      ensures table == old(table) - Elements(ids)
      ensures Dropped(old(sessions), old(removed), Elements(ids), sessions, removed)
    {
      var evicted := UnlinkBatch(ids);
      WipeBatch(evicted);
    }

    /** The second pass of doGC, a batch at a time. */
    method SweepAll(expired: seq<SessionId>, batchSize: nat)
      requires Owned() && Settled() && batchSize > 0
      modifies `sessions, `table, `books, `removed, `owner, `accepted, books.Keys, accepted.Keys
      ensures Owned() && Settled() && accepted == old(accepted) && books.Keys <= old(books.Keys)
      ensures table == old(table) - Elements(expired)
      ensures Dropped(old(sessions), old(removed), Elements(expired), sessions, removed)
    {
      var idx := 0;
      DroppedNone(sessions, removed);
      assert Elements(expired[..0]) == {};
      while idx < |expired|
        invariant idx <= |expired|
        invariant Owned() && Settled() && accepted == old(accepted) && books.Keys <= old(books.Keys)
        invariant table == old(table) - Elements(expired[..idx])
        invariant Dropped(old(sessions), old(removed), Elements(expired[..idx]), sessions, removed)
      {
        var end := if idx + batchSize < |expired| then idx + batchSize else |expired|;
        ElementsUpTo(expired, idx, end);
        TableMinus(old(table), Elements(expired[..idx]), Elements(expired[idx..end]));
        ghost var before, gone := sessions, removed;
        SweepBatch(expired[idx..end]);
        DroppedTwice(old(sessions), old(removed), Elements(expired[..idx]), before, gone, Elements(expired[idx..end]), sessions, removed);
        idx := end;
      }
      assert expired[..|expired|] == expired;
    }

    /** doGC, told by the table. */
    method SweepOnTable(now: int, batchSize: nat)
      requires Valid() && batchSize > 0
      modifies this, books.Keys, accepted.Keys
      ensures Valid() && accepted == old(accepted) && books.Keys <= old(books.Keys)
      ensures table == SweptTable(opts, old(table), now)
      ensures sessions == old(sessions) - DeadIds(opts, old(table), now)
      ensures removed == old(removed) + Named(old(sessions), DeadIds(opts, old(table), now)) && lingering == old(lingering)
      ensures log == old(log) + [Swept(now)]
    {
      var expired := ExpiredIds(now);
      SweepAll(expired, batchSize);
      assert Elements(expired) == DeadIds(opts, old(table), now);
      DroppedMeans(old(sessions), old(removed), Elements(expired), sessions, removed);
      SweptFollows(opts, old(table), Used(), now, Elements(expired));
      Record(old(table), Swept(now), Used());
    }

    /** doGC: whatever the batch size, the sweep leaves exactly the sessions that are in time and can be renewed or hold a
        credential that has not expired, and leaves them alone; every other session is zeroed once, none is lost track of. */
    method DoGC(now: int, batchSize: nat)
      requires Valid() && batchSize > 0
      modifies this, books.Keys, accepted.Keys
      ensures Valid() && accepted == old(accepted) && books.Keys <= old(books.Keys)
      ensures table == SweptTable(opts, old(table), now)
      ensures forall id :: id in sessions <==>
                && id in old(table) && var t := old(table)[id];
                   && now <= t.createdAt + opts.maxLifetime && now - t.lastSeen <= opts.idleTimeout
                   && (t.refreshable || t.credential.expiresAt.None? || now <= t.credential.expiresAt.value)
      ensures forall id | id in sessions :: sessions[id] == old(sessions)[id]
      ensures removed == old(removed) + Named(old(sessions), old(sessions).Keys - sessions.Keys) && lingering == old(lingering)
      ensures log == old(log) + [Swept(now)]
    {
      SweepOnTable(now, batchSize);
      assert old(table).Keys == old(sessions).Keys;
      assert old(sessions).Keys - sessions.Keys == DeadIds(opts, old(table), now);
    }

    // -------------------------------------------------------------- what every reachable store satisfies

    /** What the store went through is a run of the model, so that the theorems about runs speak of it. */
    lemma WentThroughARun()
      requires Valid()
      ensures opts.Sound() && IsRun(opts, states, log) && states[|log|].sessions == table
    {
      assert Unlocked(RunSeal);
    }

    /** The ghost field `held` of a stored session is the set of arrays its credential and refresh token refer to. */
    lemma HeldIsMaterial(id: SessionId)
      requires Valid() && id in sessions
      ensures sessions[id].held == sessions[id].Material() && sessions[id].Coherent()
      ensures sessions[id].id == id && sessions[id].View() == table[id]
    {
      assert Unlocked(StoreSeal) && Unlocked(EntrySeal) && Unlocked(SessionSeal);
    }

    /** Those are the token, the certificate, the key and the refresh token, as far as the session has them. */
    lemma HeldIsEverySecret(id: SessionId, a: array<byte>)
      requires Valid() && id in sessions
      ensures var s := sessions[id];
              a in s.held <==> a == s.credential.token || a == s.credential.certPEM || a == s.credential.keyPEM || a == s.refreshToken
    {
      HeldIsMaterial(id);
    }

    lemma OwnerHolds(a: array<byte>)
      requires Valid() && a in accepted
      ensures if a in owner then Stored(owner[a]) && a in owner[a].held && a[..] == accepted[a] else Erased(a)
      ensures forall id | id in sessions && a in sessions[id].held :: a in owner && owner[a] == sessions[id]
    {
      assert Unlocked(StoreSeal) && Unlocked(EntrySeal);
    }

    /** Credential conservation: an array the store ever took charge of is held by exactly one stored session and has the
        bytes it came with, or nobody holds it and it is zero. */
    lemma CredentialConservation(a: array<byte>)
      requires Valid() && a in accepted
      ensures (exists id :: id in sessions && a in sessions[id].held) ==> a[..] == accepted[a]
      ensures (forall id | id in sessions :: a !in sessions[id].held) ==> forall i | 0 <= i < a.Length :: a[i] == 0
      ensures forall i, j | i in sessions && j in sessions && a in sessions[i].held && a in sessions[j].held :: i == j
    {
      OwnerHolds(a);
      forall id | id in sessions
        ensures sessions[id].id == id
      {
        ViewOf(id);
      }
    }

    /** What a stored session holds was accepted and is intact. */
    lemma HeldIsIntact(id: SessionId, a: array<byte>)
      requires Valid() && id in sessions && a in sessions[id].held
      ensures a in accepted && a[..] == accepted[a]
    {
      assert Unlocked(StoreSeal) && Unlocked(EntrySeal);
    }

    /** A session that is gone was zeroed once and holds no material; and every transport built while it was in service has been
        cleaned up exactly once, if it owned a pool. What is built for it later is cleaned up unless it is still cached. */
    lemma GoneIsGone(s: Session)
      requires Valid() && s in removed
      ensures s.zeroings == 1 && s.Material() == {}
      ensures forall rt <- s.builtInService :: s.cleanups[rt] == if rt.ownsPool then 1 else 0
      ensures forall rt <- s.built :: s.cleanups[rt] == if rt.ownsPool && !s.Cached(rt) then 1 else 0
      ensures s !in lingering ==> s.transports == map[]
      ensures forall id | id in sessions :: sessions[id] != s
    {
      assert Unlocked(StoreSeal) && Unlocked(SessionSeal) && Unlocked(LateSeal);
    }

    /** Exactly when a session that is gone holds transports: when some request that still had it asked for one after it was
        gone that can be built, and none has asked for another version of the same upstream since. The condition is about
        what the requests ask for, in whatever order. */
    lemma GoneHoldsTransportExactlyWhen(s: Session)
      requires Valid() && s in removed
      ensures s.transports != map[] <==> exists key :: Survives(s.credential.kind, s.late, key)
      ensures forall key :: key in s.transports <==> Survives(s.credential.kind, s.late, key)
      ensures s in lingering <==> s.late != []
    {
      assert Unlocked(StoreSeal) && Unlocked(SessionSeal) && Unlocked(LateSeal);
      assert s.transports != map[] ==> exists key :: key in s.transports;
    }

    /** The store never holds more than MaxSessions sessions, nor more than MaxSessionsPerUser of one user. */
    lemma NeverOverCapacity()
      requires Valid()
      ensures |sessions| <= opts.maxSessions
      ensures forall username | username != "" :: |SessionsOfUser(table, username)| <= opts.maxSessionsPerUser
    {
      TableSize();
      assert Unlocked(RunSeal);
      RunWithinCaps(opts, states, log, |log|);
    }
  }
}
