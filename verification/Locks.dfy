// The keyed lock of internal/lima/locks.go.
//
// The first half is a transition system over a lock table: every Lock call is
// a process whose atomic steps are the mutex-protected sections and the channel
// operations of the source.  The second half is the table itself, as the
// mutable object the program uses; each of its methods is one atomic section
// and is proved to be the corresponding table operation of the first half.
//
// Entries are compared by identity, so the table is generic in what an entry
// is: the class instantiates it with object references.

module Locks {

  /** What the channel of an entry buffers and how many calls refer to it. */
  datatype Cell = Cell(tokens: nat, refs: int)

  /** `locks` is the map of the program; `cells` remembers every entry ever
      made, including those the map has dropped. */
  datatype Table<!E(==)> = Table(locks: map<string, E>, cells: map<E, Cell>)

  /** The capacity of an entry's channel. */
  const CAPACITY: nat := 1

  // ---------------------------------------------------------------------
  // The four atomic sections, as operations on the table
  // ---------------------------------------------------------------------

  /** The first mutex section: find or make the entry, count the caller. */
  ghost function Registered<E>(t: Table<E>, key: string, e: E): Table<E>
    requires key in t.locks ==> e == t.locks[key] && e in t.cells
  {
    var cell := if key in t.locks then t.cells[e] else Cell(CAPACITY, 0);
    Table(t.locks[key := e], t.cells[e := cell.(refs := cell.refs + 1)])
  }

  /** Receiving from the channel. */
  ghost function Received<E>(t: Table<E>, e: E): Table<E>
    requires e in t.cells && t.cells[e].tokens > 0
  {
    t.(cells := t.cells[e := t.cells[e].(tokens := t.cells[e].tokens - 1)])
  }

  /** Sending on the channel. */
  ghost function Sent<E>(t: Table<E>, e: E): Table<E>
    requires e in t.cells && t.cells[e].tokens < CAPACITY
  {
    t.(cells := t.cells[e := t.cells[e].(tokens := t.cells[e].tokens + 1)])
  }

  /** The `release` closure: drop the reference, and the map key with the last
      one.  The key is dropped whatever entry it maps to. */
  ghost function Released<E>(t: Table<E>, key: string, e: E): Table<E>
    requires e in t.cells
  {
    var refs := t.cells[e].refs - 1;
    Table(if refs == 0 then t.locks - {key} else t.locks,
          t.cells[e := t.cells[e].(refs := refs)])
  }

  // ---------------------------------------------------------------------
  // Lock calls as processes
  // ---------------------------------------------------------------------

  /** Where one Lock call stands.  `GivingUp` chose the cancelled context and
      still holds its reference; `Returning` has put the token back and still
      holds its reference. */
  datatype Phase<E> =
    | Waiting(key: string, e: E)
    | Owning(key: string, e: E)
    | GivingUp(key: string, e: E)
    | Returning(key: string, e: E)
    | Finished

  datatype State<!E(==)> = State(table: Table<E>, calls: map<nat, Phase<E>>)

  /** `Refuse` is a Lock call whose context is already done; `Unlock` runs the
      returned function and may be repeated. */
  datatype Event<E> =
    | Refuse(id: nat)
    | Register(id: nat, key: string, e: E)
    | Receive(id: nat)
    | Cancel(id: nat)
    | Unlock(id: nat)
    | Release(id: nat)

  ghost predicate Interested<E>(p: Phase<E>) { !p.Finished? }

  /** Whether the event can happen now.  A receive needs a token, a send needs
      room; a new entry is one that never existed. */
  ghost predicate Enabled<E>(s: State<E>, ev: Event<E>) {
    match ev
    case Refuse(id) => id !in s.calls
    case Register(id, key, e) =>
      && id !in s.calls
      && (if key in s.table.locks then e == s.table.locks[key] && e in s.table.cells else e !in s.table.cells)
    case Receive(id) =>
      id in s.calls && s.calls[id].Waiting? && s.calls[id].e in s.table.cells && s.table.cells[s.calls[id].e].tokens > 0
    case Cancel(id) => id in s.calls && s.calls[id].Waiting?
    case Unlock(id) =>
      && id in s.calls && !s.calls[id].Waiting? && !s.calls[id].GivingUp?
      && (s.calls[id].Owning? ==> s.calls[id].e in s.table.cells && s.table.cells[s.calls[id].e].tokens < CAPACITY)
    case Release(id) =>
      id in s.calls && (s.calls[id].GivingUp? || s.calls[id].Returning?) && s.calls[id].e in s.table.cells
  }

  ghost function Step<E>(s: State<E>, ev: Event<E>): State<E>
    requires Enabled(s, ev)
  {
    match ev
    case Refuse(id) => s.(calls := s.calls[id := Finished])
    case Register(id, key, e) =>
      State(Registered(s.table, key, e), s.calls[id := Waiting(key, e)])
    case Receive(id) =>
      State(Received(s.table, s.calls[id].e), s.calls[id := Owning(s.calls[id].key, s.calls[id].e)])
    case Cancel(id) =>
      s.(calls := s.calls[id := GivingUp(s.calls[id].key, s.calls[id].e)])
    case Unlock(id) =>
      if s.calls[id].Owning? then
        State(Sent(s.table, s.calls[id].e), s.calls[id := Returning(s.calls[id].key, s.calls[id].e)])
      else s  // once.Do: only the first call of the function does anything
    case Release(id) =>
      State(Released(s.table, s.calls[id].key, s.calls[id].e), s.calls[id := Finished])
  }

  /** No calls and no entries. */
  ghost function Start<E>(): State<E> { State(Table(map[], map[]), map[]) }

  ghost predicate Runs<E>(s: State<E>, trace: seq<Event<E>>)
    decreases |trace|
  {
    trace == [] || (Enabled(s, trace[0]) && Runs(Step(s, trace[0]), trace[1..]))
  }

  ghost function After<E>(s: State<E>, trace: seq<Event<E>>): State<E>
    requires Runs(s, trace)
    decreases |trace|
  {
    if trace == [] then s else After(Step(s, trace[0]), trace[1..])
  }

  // ---------------------------------------------------------------------
  // The invariant
  // ---------------------------------------------------------------------

  ghost function Users<E>(s: State<E>, e: E): (r: set<nat>) {
    set id | id in s.calls && Interested(s.calls[id]) && s.calls[id].e == e
  }

  ghost function Owners<E>(s: State<E>, e: E): (r: set<nat>) {
    set id | id in s.calls && s.calls[id].Owning? && s.calls[id].e == e
  }

  /** An interested call holds the entry its key maps to. */
  ghost predicate Agrees<E>(s: State<E>, id: nat)
    requires id in s.calls
  {
    Interested(s.calls[id]) ==>
      s.calls[id].key in s.table.locks && s.table.locks[s.calls[id].key] == s.calls[id].e
  }

  /** The reference count is the number of interested calls, and the entry's one
      token is either in its channel or with its one owner. */
  ghost predicate Conserved<E>(s: State<E>, e: E)
    requires e in s.table.cells
  {
    s.table.cells[e].refs == |Users(s, e)| && s.table.cells[e].tokens + |Owners(s, e)| == CAPACITY
  }

  /** A key is in the map only while its entry is referred to. */
  ghost predicate Live<E>(t: Table<E>, k: string)
    requires k in t.locks
  {
    t.locks[k] in t.cells && t.cells[t.locks[k]].refs > 0
  }

  ghost predicate Inv<E>(s: State<E>) {
    && (forall id | id in s.calls :: Agrees(s, id))
    && (forall e | e in s.table.cells :: Conserved(s, e))
    && (forall k | k in s.table.locks :: Live(s.table, k))
    && (forall k, l | k in s.table.locks && l in s.table.locks && k != l :: s.table.locks[k] != s.table.locks[l])
  }

  // ---------------------------------------------------------------------
  // Preservation, one event at a time
  // ---------------------------------------------------------------------

  lemma StartInv<E>()
    ensures Inv(Start<E>())
  {
  }

  lemma MoveSets<E>(s: State<E>, s': State<E>, id: nat, p: Phase<E>, e: E)
    requires s'.calls == s.calls[id := p]
    ensures Users(s', e) == Users(s, e) - {id} + (if Interested(p) && p.e == e then {id} else {})
    ensures Owners(s', e) == Owners(s, e) - {id} + (if p.Owning? && p.e == e then {id} else {})
  {
  }

  /** Moving one call to another phase changes who uses and owns an entry by
      that one call at most. */
  lemma MoveCall<E>(s: State<E>, s': State<E>, id: nat, p: Phase<E>, e: E)
    requires s'.calls == s.calls[id := p]
    ensures |Users(s', e)|
         == |Users(s, e)| - (if id in Users(s, e) then 1 else 0) + (if Interested(p) && p.e == e then 1 else 0)
    ensures |Owners(s', e)|
         == |Owners(s, e)| - (if id in Owners(s, e) then 1 else 0) + (if p.Owning? && p.e == e then 1 else 0)
  {
    MoveSets(s, s', id, p, e);
    MoveOne(Users(s, e), Users(s', e), id, Interested(p) && p.e == e);
    MoveOne(Owners(s, e), Owners(s', e), id, p.Owning? && p.e == e);
  }

  lemma MoveOne(a: set<nat>, b: set<nat>, id: nat, stays: bool)
    requires b == a - {id} + if stays then {id} else {}
    ensures |b| == |a| - (if id in a then 1 else 0) + (if stays then 1 else 0)
  {
    assert |a - {id}| == |a| - if id in a then 1 else 0;
  }

  lemma RegisterKeeps<E>(s: State<E>, ev: Event<E>)
    requires Inv(s) && Enabled(s, ev) && ev.Register?
    ensures Inv(Step(s, ev))
  {
    var s' := Step(s, ev);
    if ev.key !in s.table.locks {
      forall id | id in s.calls ensures !Interested(s.calls[id]) || s.calls[id].e != ev.e {
        assert Agrees(s, id);
        if Interested(s.calls[id]) { assert Live(s.table, s.calls[id].key); }
      }
      assert Users(s, ev.e) == {} && Owners(s, ev.e) == {};
    }
    forall e | e in s'.table.cells ensures Conserved(s', e) {
      MoveCall(s, s', ev.id, s'.calls[ev.id], e);
      assert e in s.table.cells ==> Conserved(s, e);
    }
    forall id | id in s'.calls ensures Agrees(s', id) {
      if id in s.calls { assert Agrees(s, id); }
    }
    forall k | k in s'.table.locks ensures Live(s'.table, k) {
      if k in s.table.locks { assert Live(s.table, k); }
      assert Conserved(s', s'.table.locks[k]);
    }
  }

  /** Receive, Cancel, Unlock and Refuse leave the lock map and every reference
      count alone. */
  lemma TokenStepKeeps<E>(s: State<E>, ev: Event<E>)
    requires Inv(s) && Enabled(s, ev) && !ev.Register? && !ev.Release?
    ensures Inv(Step(s, ev))
  {
    var s' := Step(s, ev);
    forall e | e in s'.table.cells ensures Conserved(s', e) {
      TokenMoves(s, ev, e);
    }
    forall id | id in s'.calls ensures Agrees(s', id) {
      if id in s.calls { assert Agrees(s, id); }
    }
    forall k | k in s'.table.locks ensures Live(s'.table, k) {
      assert Live(s.table, k);
    }
  }

  lemma TokenMoves<E>(s: State<E>, ev: Event<E>, e: E)
    requires Inv(s) && Enabled(s, ev) && !ev.Register? && !ev.Release?
    requires e in s.table.cells
    ensures Conserved(Step(s, ev), e)
  {
    var s' := Step(s, ev);
    assert Conserved(s, e);
    if s' != s {
      MoveCall(s, s', ev.id, s'.calls[ev.id], e);
    }
  }

  lemma ReleaseKeeps<E>(s: State<E>, ev: Event<E>)
    requires Inv(s) && Enabled(s, ev) && ev.Release?
    ensures Inv(Step(s, ev))
  {
    var s' := Step(s, ev);
    var e0, k0 := s.calls[ev.id].e, s.calls[ev.id].key;
    assert Agrees(s, ev.id) && ev.id in Users(s, e0);
    forall e | e in s'.table.cells ensures Conserved(s', e) {
      MoveCall(s, s', ev.id, Finished, e);
      assert Conserved(s, e);
    }
    // When the last reference goes, nobody else is using the key.
    forall id | id in s'.calls ensures Agrees(s', id) {
      if id != ev.id && Interested(s'.calls[id]) {
        assert Agrees(s, id);
        if s.calls[id].key == k0 {
          assert id in Users(s', e0) && Conserved(s', e0);
          assert Users(s', e0) != {};
        }
      }
    }
    forall k | k in s'.table.locks ensures Live(s'.table, k) {
      assert Live(s.table, k) && Conserved(s', s'.table.locks[k]);
    }
  }

  lemma StepKeeps<E>(s: State<E>, ev: Event<E>)
    requires Inv(s) && Enabled(s, ev)
    ensures Inv(Step(s, ev))
  {
    match ev
    case Register(_, _, _) => RegisterKeeps(s, ev);
    case Release(_) => ReleaseKeeps(s, ev);
    case _ => TokenStepKeeps(s, ev);
  }

  /** Every state of every interleaving of any number of calls on any keys. */
  lemma {:induction false} RunKeeps<E>(s: State<E>, trace: seq<Event<E>>)
    requires Inv(s) && Runs(s, trace)
    ensures Inv(After(s, trace))
    decreases |trace|
  {
    if trace != [] {
      StepKeeps(s, trace[0]);
      RunKeeps(Step(s, trace[0]), trace[1..]);
    }
  }

  // ---------------------------------------------------------------------
  // What holds in every run
  // ---------------------------------------------------------------------

  lemma Reached<E>(trace: seq<Event<E>>)
    requires Runs(Start<E>(), trace)
    ensures Inv(After(Start<E>(), trace))
  {
    StartInv<E>();
    RunKeeps(Start<E>(), trace);
  }

  /** Two live calls for one key always share one entry, although entries are
      deleted and made again. */
  lemma OneEntryPerKey<E>(trace: seq<Event<E>>, i: nat, j: nat)
    requires Runs(Start<E>(), trace)
    requires var s := After(Start<E>(), trace);
      && i in s.calls && j in s.calls && Interested(s.calls[i]) && Interested(s.calls[j])
      && s.calls[i].key == s.calls[j].key
    ensures var s := After(Start<E>(), trace); s.calls[i].e == s.calls[j].e
  {
    var s := After(Start<E>(), trace);
    Reached(trace);
    assert Agrees(s, i) && Agrees(s, j);
  }

  /** Mutual exclusion. */
  lemma AtMostOneOwner<E>(trace: seq<Event<E>>, i: nat, j: nat)
    requires Runs(Start<E>(), trace)
    requires var s := After(Start<E>(), trace);
      i in s.calls && j in s.calls && s.calls[i].Owning? && s.calls[j].Owning? && s.calls[i].key == s.calls[j].key
    ensures i == j
  {
    var s := After(Start<E>(), trace);
    Reached(trace);
    OneEntryPerKey(trace, i, j);
    OwnersAtMostOne(s, i, j);
  }

  lemma OwnersAtMostOne<E>(s: State<E>, i: nat, j: nat)
    requires Inv(s)
    requires i in s.calls && j in s.calls && s.calls[i].Owning? && s.calls[j].Owning? && s.calls[i].e == s.calls[j].e
    ensures i == j
  {
    var e := s.calls[i].e;
    assert Agrees(s, i) && Live(s.table, s.calls[i].key) && Conserved(s, e);
    assert {i, j} <= Owners(s, e);
    if i != j {
      SubsetSize({i, j}, Owners(s, e));
    }
  }

  lemma SubsetSize(a: set<nat>, b: set<nat>)
    requires a <= b
    ensures |a| <= |b|
  {
    if a != {} {
      var x :| x in a;
      SubsetSize(a - {x}, b - {x});
    }
  }

  /** Somebody is interested in a key in the map. */
  lemma Wanted<E>(s: State<E>, key: string)
    requires Inv(s) && key in s.table.locks
    ensures exists id :: id in s.calls && Interested(s.calls[id]) && s.calls[id].key == key
  {
    var e := s.table.locks[key];
    assert Live(s.table, key) && Conserved(s, e);
    assert Users(s, e) != {};
    var id :| id in Users(s, e);
    assert Agrees(s, id);
  }

  /** An entry is in the map exactly while some call is interested in its key,
      and its reference count is then the number of those calls. */
  lemma EntryExistsWhileWanted<E>(trace: seq<Event<E>>, key: string)
    requires Runs(Start<E>(), trace)
    ensures var s := After(Start<E>(), trace);
      key in s.table.locks <==> exists id :: id in s.calls && Interested(s.calls[id]) && s.calls[id].key == key
    ensures var s := After(Start<E>(), trace);
      key in s.table.locks ==>
        && s.table.locks[key] in s.table.cells
        && s.table.cells[s.table.locks[key]].refs
             == |set id | id in s.calls && Interested(s.calls[id]) && s.calls[id].key == key|
  {
    var s := After(Start<E>(), trace);
    Reached(trace);
    forall id | id in s.calls ensures Agrees(s, id) {}
    if key in s.table.locks {
      var e := s.table.locks[key];
      assert Live(s.table, key) && Conserved(s, e);
      assert Users(s, e) == set id | id in s.calls && Interested(s.calls[id]) && s.calls[id].key == key;
      Wanted(s, key);
    }
  }

  /** The token is in the channel or with the owner, so putting it back never
      blocks, and a waiter can take it exactly when nobody owns the key. */
  lemma OwnerCanReturn<E>(trace: seq<Event<E>>, id: nat)
    requires Runs(Start<E>(), trace)
    requires id in After(Start<E>(), trace).calls && After(Start<E>(), trace).calls[id].Owning?
    ensures Enabled(After(Start<E>(), trace), Unlock(id))
  {
    Reached(trace);
    ReturnableWhenOwned(After(Start<E>(), trace), id);
  }

  lemma ReturnableWhenOwned<E>(s: State<E>, id: nat)
    requires Inv(s) && id in s.calls && s.calls[id].Owning?
    ensures Enabled(s, Unlock(id))
  {
    assert Agrees(s, id) && Live(s.table, s.calls[id].key) && Conserved(s, s.calls[id].e);
    assert id in Owners(s, s.calls[id].e);
  }

  lemma WaiterCanAcquire<E>(trace: seq<Event<E>>, id: nat)
    requires Runs(Start<E>(), trace)
    requires id in After(Start<E>(), trace).calls && After(Start<E>(), trace).calls[id].Waiting?
    ensures var s := After(Start<E>(), trace); Enabled(s, Receive(id)) <==> Free(s, s.calls[id].key)
  {
    Reached(trace);
    AcquirableWhenFree(After(Start<E>(), trace), id);
  }

  /** No call owns the key. */
  ghost predicate Free<E>(s: State<E>, key: string) {
    forall other :: other in s.calls && s.calls[other].Owning? ==> s.calls[other].key != key
  }

  lemma AcquirableWhenFree<E>(s: State<E>, id: nat)
    requires Inv(s) && id in s.calls && s.calls[id].Waiting?
    ensures Enabled(s, Receive(id)) <==> Free(s, s.calls[id].key)
  {
    var e := s.calls[id].e;
    assert Agrees(s, id) && Live(s.table, s.calls[id].key) && Conserved(s, e);
    forall other | other in s.calls && s.calls[other].Owning?
      ensures other in Owners(s, e) <==> s.calls[other].key == s.calls[id].key
    {
      assert Agrees(s, other);
    }
    if Owners(s, e) != {} {
      var other :| other in Owners(s, e);
    } else {
      assert |Owners(s, e)| == 0;
    }
  }

  /** As long as some call is unfinished, one of them can move on without any
      context being cancelled. */
  lemma SomebodyMoves<E>(trace: seq<Event<E>>, id: nat) returns (ev: Event<E>)
    requires Runs(Start<E>(), trace)
    requires id in After(Start<E>(), trace).calls && Interested(After(Start<E>(), trace).calls[id])
    ensures Enabled(After(Start<E>(), trace), ev)
    ensures ev.Receive? || ev.Unlock? || ev.Release?
    ensures Step(After(Start<E>(), trace), ev) != After(Start<E>(), trace)
  {
    var s := After(Start<E>(), trace);
    Reached(trace);
    assert Agrees(s, id) && Live(s.table, s.calls[id].key);
    if s.calls[id].Owning? {
      OwnerCanReturn(trace, id);
      ev := Unlock(id);
      assert Step(s, ev).calls[id].Returning?;
    } else if s.calls[id].Waiting? {
      WaiterCanAcquire(trace, id);
      if other :| other in s.calls && s.calls[other].Owning? && s.calls[other].key == s.calls[id].key {
        OwnerCanReturn(trace, other);
        ev := Unlock(other);
        assert Step(s, ev).calls[other].Returning?;
      } else {
        ev := Receive(id);
        assert Step(s, ev).calls[id].Owning?;
      }
    } else {
      ev := Release(id);
      assert Step(s, ev).calls[id].Finished?;
    }
  }

  /** Nothing leaks: when every call has finished the map is empty. */
  lemma NothingLeaks<E>(trace: seq<Event<E>>)
    requires Runs(Start<E>(), trace)
    requires var s := After(Start<E>(), trace); forall id | id in s.calls :: s.calls[id].Finished?
    ensures After(Start<E>(), trace).table.locks == map[]
  {
    var s := After(Start<E>(), trace);
    forall key | key in s.table.locks ensures false {
      EntryExistsWhileWanted(trace, key);
    }
  }

  /** Which calls own which key: what a user of the lock relies on. */
  ghost function Held<E>(s: State<E>): map<nat, string> {
    map id | id in s.calls && s.calls[id].Owning? :: s.calls[id].key
  }

  /** The table refines one owner per key: a key is only ever taken when nobody
      has it, only given up by its owner, and no other event is visible. */
  lemma RefinesOwners<E>(trace: seq<Event<E>>, ev: Event<E>)
    requires Runs(Start<E>(), trace) && Enabled(After(Start<E>(), trace), ev)
    ensures var s := After(Start<E>(), trace); var before, after := Held(s), Held(Step(s, ev));
      if ev.Receive? then
        ev.id !in before && s.calls[ev.id].key !in before.Values && after == before[ev.id := s.calls[ev.id].key]
      else if ev.Unlock? then after == before - {ev.id}
      else after == before
  {
    var s := After(Start<E>(), trace);
    if ev.Receive? {
      WaiterCanAcquire(trace, ev.id);
    }
  }

  // ---------------------------------------------------------------------
  // The mutable table
  // ---------------------------------------------------------------------

  class Entry {
    var tokens: nat
    var refs: int

    // Buffered by one and filled: a receive is an acquire.
    constructor ()
      ensures tokens == CAPACITY && refs == 0
    {
      tokens, refs := CAPACITY, 0;
    }
  }

  class KeyedMutex {
    var locks: map<string, Entry>
    ghost var made: set<Entry>

    ghost predicate Valid()
      reads this
    {
      locks.Values <= made
    }

    ghost function View(): Table<Entry>
      reads this, made
    {
      Table(locks, map e | e in made :: Cell(e.tokens, e.refs))
    }

    constructor ()
      ensures Valid() && View() == Start<Entry>().table
    {
      locks, made := map[], {};
    }

    /** The part of Lock that runs under the table's mutex. */
    method Register(key: string) returns (e: Entry)
      requires Valid()
      modifies this, made
      ensures Valid() && e in made && made == old(made) + {e}
      ensures if key in old(locks) then e == old(locks)[key] else fresh(e)
      ensures View() == Registered(old(View()), key, e)
    {
      if key in locks {
        assert locks[key] in locks.Values;
        e := locks[key];
      } else {
        e := new Entry();
        made := made + {e};
        locks := locks[key := e];
      }
      e.refs := e.refs + 1;
    }

    /** The acquiring receive; it can run once the channel holds a token. */
    method Receive(e: Entry)
      requires Valid() && e in made && e.tokens > 0
      modifies e`tokens
      ensures Valid() && made == old(made) && View() == Received(old(View()), e)
    {
      e.tokens := e.tokens - 1;
    }

    method Send(e: Entry)
      requires Valid() && e in made && e.tokens < CAPACITY
      modifies e`tokens
      ensures Valid() && made == old(made) && View() == Sent(old(View()), e)
    {
      e.tokens := e.tokens + 1;
    }

    method Release(key: string, e: Entry)
      requires Valid() && e in made
      modifies `locks, e`refs
      ensures Valid() && made == old(made) && View() == Released(old(View()), key, e)
    {
      e.refs := e.refs - 1;
      if e.refs == 0 {
        locks := map k | k in locks && k != key :: locks[k];
      }
    }
  }

  /** The function Lock returns to an owner. */
  class Unlocker {
    const m: KeyedMutex
    const key: string
    const e: Entry
    var done: bool

    constructor (m: KeyedMutex, key: string, e: Entry)
      ensures this.m == m && this.key == key && this.e == e && !done
    {
      this.m, this.key, this.e := m, key, e;
      done := false;
    }

    /** Gives the token and the reference back the first time, and does nothing
        when called again. */
    method Call()
      requires m.Valid() && e in m.made && (!done ==> e.tokens < CAPACITY)
      modifies `done, m`locks, e
      ensures m.Valid() && m.made == old(m.made) && done
      ensures m.View() == if old(done) then old(m.View()) else Released(Sent(old(m.View()), e), key, e)
    {
      if !done {
        done := true;
        m.Send(e);
        m.Release(key, e);
      }
    }
  }
}
