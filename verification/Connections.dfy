/** The two connection caches of a backend: the table of JDBCUtils objects in C and the table of JDBC
    connections in Java, under invalidation, release and transaction end.
 */
module Connections {
  import opened Nodes

  /** A Java connection object; its identity is its place in the heap. */
  datatype JConn = JConn(open: bool, invalidate: bool, serverHash: nat, mappingHash: nat)

  datatype Key = Key(serverid: Oid, userid: Oid)

  /** An entry of the C table; `utils` is the Java connection of its JDBCUtils object, or None. */
  datatype Entry = Entry(utils: Option<nat>, serverHash: nat, mappingHash: nat)

  /** `hash` is the Java table, from user mapping to connection; `results` are the live result-set
      handles; `got` tells whether a connection was asked for in this transaction. */
  datatype State = State(table: map<Key, Entry>, hash: map<Oid, nat>, heap: seq<JConn>, results: set<int>, got: bool)

  const START := State(map[], map[], [], {}, false)

  /** The catalogs: the hash values of servers and user mappings, and the server of each mapping. */
  datatype Catalog = Catalog(serverHash: Oid -> nat, mappingHash: Oid -> nat, serverOf: Oid -> Oid)

  datatype CacheId = ServerCache | MappingCache

  datatype GetResult = Connected | FailsBeforeJava | FailsAfterJava

  datatype XactEvent = Commit | Abort | OtherEvent

  /** What can happen to a backend. An invalidation carries the order in which Java happens to visit
      its cached connections. */
  datatype Event =
    | Get(userid: Oid, umid: Oid, result: GetResult)
    | Invalidate(cacheid: CacheId, hashvalue: nat, order: seq<nat>)
    | OpenResult(key: Key, handle: int)
    | CloseResult(handle: int)
    | Release
    | TransactionEnd(event: XactEvent)

  // ---------- the Java side ----------

  function Closed(heap: seq<JConn>, r: nat): (h: seq<JConn>)
    ensures |h| == |heap|
  {
    if r < |heap| then heap[r := heap[r].(open := false, invalidate := true)] else heap
  }

  predicate Matches(c: JConn, cacheid: CacheId, hashvalue: nat) {
    match cacheid
    case ServerCache => c.serverHash == hashvalue
    case MappingCache => c.mappingHash == hashvalue
  }

  /** The first cached connection that matches, in the order visited. */
  function FirstMatch(heap: seq<JConn>, order: seq<nat>, cacheid: CacheId, hashvalue: nat): Option<nat> {
    if order == [] then None
    else if order[0] < |heap| && Matches(heap[order[0]], cacheid, hashvalue) then Some(order[0])
    else FirstMatch(heap, order[1..], cacheid, hashvalue)
  }

  function CloseAll(heap: seq<JConn>, order: seq<nat>): (h: seq<JConn>)
    ensures |h| == |heap|
  {
    if order == [] then heap else Closed(CloseAll(heap, order[..|order| - 1]), order[|order| - 1])
  }

  /** Invalidation closes the first match only; a reset closes all. */
  function JavaInvalidated(heap: seq<JConn>, order: seq<nat>, cacheid: CacheId, hashvalue: nat): (h: seq<JConn>)
    ensures |h| == |heap|
  {
    if hashvalue == 0 then CloseAll(heap, order)
    else
      match FirstMatch(heap, order, cacheid, hashvalue)
      case None => heap
      case Some(r) => Closed(heap, r)
  }

  predicate Reusable(s: State, umid: Oid) {
    umid in s.hash && s.hash[umid] < |s.heap| && !s.heap[s.hash[umid]].invalidate
  }

  /** The cached connection of the mapping, or a new one. */
  function JavaGet(cat: Catalog, s: State, umid: Oid): (State, nat) {
    if Reusable(s, umid) then (s, s.hash[umid])
    else
      (s.(heap := s.heap + [JConn(true, false, cat.serverHash(cat.serverOf(umid)), cat.mappingHash(umid))],
          hash := s.hash[umid := |s.heap|]), |s.heap|)
  }

  // ---------- the C side ----------

  predicate EntryMatches(e: Entry, cacheid: CacheId, hashvalue: nat) {
    || hashvalue == 0
    || (cacheid == ServerCache && e.serverHash == hashvalue)
    || (cacheid == MappingCache && e.mappingHash == hashvalue)
  }

  function Cleared(e: Entry): Entry {
    e.(utils := None)
  }

  function TableInvalidated(table: map<Key, Entry>, cacheid: CacheId, hashvalue: nat): map<Key, Entry> {
    map k | k in table :: if EntryMatches(table[k], cacheid, hashvalue) then Cleared(table[k]) else table[k]
  }

  function TableReleased(table: map<Key, Entry>): map<Key, Entry> {
    map k | k in table :: Cleared(table[k])
  }

  /** The entry for the key, with no connection if it is new. */
  function EntryFor(table: map<Key, Entry>, key: Key): Entry {
    if key in table then table[key] else Entry(None, 0, 0)
  }

  // ---------- one event ----------

  function GetStep(cat: Catalog, s: State, userid: Oid, umid: Oid, result: GetResult): State {
    var key := Key(cat.serverOf(umid), userid);
    var e := EntryFor(s.table, key);
    if e.utils.Some? then s.(got := true)
    else
      var hashed := Entry(None, cat.serverHash(cat.serverOf(umid)), cat.mappingHash(umid));
      var (after, r) := if result.FailsBeforeJava? then (s, 0) else JavaGet(cat, s, umid);
      after.(got := true, table := s.table[key := if result.Connected? then hashed.(utils := Some(r)) else hashed])
  }

  function Step(cat: Catalog, s: State, event: Event): State {
    match event
    case Get(userid, umid, result) => GetStep(cat, s, userid, umid, result)
    case Invalidate(cacheid, hashvalue, order) =>
      s.(table := TableInvalidated(s.table, cacheid, hashvalue),
         heap := JavaInvalidated(s.heap, order, cacheid, hashvalue))
    case OpenResult(key, h) =>
      if key in s.table && s.table[key].utils.Some? then s.(results := s.results + {h}) else s
    case CloseResult(h) => s.(results := s.results - {h})
    case Release => s.(table := TableReleased(s.table))
    case TransactionEnd(event) =>
      if !s.got || event.OtherEvent? then s
      else s.(table := TableReleased(s.table), results := {}, got := false)
  }

  /** The entry of the key holds an object. */
  predicate HasObject(s: State, key: Key) {
    key in s.table && s.table[key].utils.Some?
  }

  /** Java visits exactly its cached connections, in whatever order. */
  ghost predicate Legal(s: State, event: Event) {
    event.Invalidate? ==> forall r :: r in event.order <==> r in s.hash.Values
  }

  // ---------- the events in place ----------

  class Backend {
    const cat: Catalog
    var table: map<Key, Entry>
    var hash: map<Oid, nat>
    var heap: seq<JConn>
    var results: set<int>
    var xactGotConnection: bool

    constructor (cat: Catalog)
      ensures this.cat == cat && Value() == START
    {
      this.cat := cat;
      table, hash, heap, results, xactGotConnection := map[], map[], [], {}, false;
    }

    function Value(): State
      reads this
    {
      State(table, hash, heap, results, xactGotConnection)
    }

    /** The cached JDBC connection of the mapping, created if there is none that is still valid. */
    method GetConnection(umid: Oid) returns (r: nat)
      modifies this`hash, this`heap
      ensures (Value(), r) == JavaGet(cat, old(Value()), umid)
    {
      if umid in hash && hash[umid] < |heap| {
        var jconn := heap[hash[umid]];
        if !jconn.invalidate {
          return hash[umid];
        }
      }
      r := |heap|;
      heap := heap + [JConn(true, false, cat.serverHash(cat.serverOf(umid)), cat.mappingHash(umid))];
      hash := hash[umid := r];
    }

    /** Get a JDBCUtils object for the user's mapping, connecting if the entry has none. */
    method GetUtilsObj(userid: Oid, umid: Oid, result: GetResult) returns (utils: Option<nat>)
      modifies this
      ensures Value() == Step(cat, old(Value()), Get(userid, umid, result))
      ensures utils.Some? <==> result.Connected? || old(HasObject(Value(), Key(cat.serverOf(umid), userid)))
      ensures Key(cat.serverOf(umid), userid) in table && table[Key(cat.serverOf(umid), userid)].utils == utils
      ensures utils.Some? && !old(HasObject(Value(), Key(cat.serverOf(umid), userid))) ==>
                umid in hash && utils == Some(hash[umid])
    {
      xactGotConnection := true;
      var key := Key(cat.serverOf(umid), userid);
      var entry := EntryFor(table, key);
      if entry.utils.None? {
        entry := Entry(None, cat.serverHash(cat.serverOf(umid)), cat.mappingHash(umid));
        var r := 0;
        if !result.FailsBeforeJava? {
          r := GetConnection(umid);
        }
        if result.Connected? {
          entry := entry.(utils := Some(r));
        }
        table := table[key := entry];
      }
      return entry.utils;
    }

    /** Close the cached connections Java is told to close. */
    method JavaInvalidate(cacheid: CacheId, hashvalue: nat, order: seq<nat>)
      modifies this`heap
      ensures heap == JavaInvalidated(old(heap), order, cacheid, hashvalue)
    {
      if hashvalue == 0 {
        FinalizeAllConns(order);
        return;
      }
      ghost var start := heap;
      var i := 0;
      while i < |order|
        invariant 0 <= i <= |order|
        invariant heap == start
        invariant FirstMatch(start, order, cacheid, hashvalue) == FirstMatch(start, order[i..], cacheid, hashvalue)
      {
        if order[i] < |heap| && Matches(heap[order[i]], cacheid, hashvalue) {
          heap := heap[order[i] := heap[order[i]].(open := false, invalidate := true)];
          return;
        }
        assert order[i..][1..] == order[i + 1..];
        i := i + 1;
      }
    }

    method FinalizeAllConns(order: seq<nat>)
      modifies this`heap
      ensures heap == CloseAll(old(heap), order)
    {
      var i := 0;
      while i < |order|
        invariant 0 <= i <= |order|
        invariant heap == CloseAll(old(heap), order[..i])
      {
        assert order[..i + 1][..i] == order[..i];
        heap := Closed(heap, order[i]);
        i := i + 1;
      }
      assert order[..i] == order;
    }

    /** Scan the C table, clearing the entries that match. */
    method ClearEntries(all: bool, cacheid: CacheId, hashvalue: nat)
      modifies this`table
      ensures table == if all then TableReleased(old(table)) else TableInvalidated(old(table), cacheid, hashvalue)
    {
      var todo := table.Keys;
      ghost var target := if all then TableReleased(table) else TableInvalidated(table, cacheid, hashvalue);
      while todo != {}
        invariant todo <= table.Keys == old(table).Keys
        invariant forall k :: k in table ==> table[k] == if k in todo then old(table)[k] else target[k]
        decreases todo
      {
        var k :| k in todo;
        var entry := table[k];
        if entry.utils.Some? && (all || EntryMatches(entry, cacheid, hashvalue)) {
          table := table[k := entry.(utils := None)];
        }
        todo := todo - {k};
      }
    }

    /** The callback for changes of servers and user mappings. */
    method InvalCallback(cacheid: CacheId, hashvalue: nat, order: seq<nat>)
      modifies this
      ensures Value() == Step(cat, old(Value()), Invalidate(cacheid, hashvalue, order))
    {
      ClearEntries(false, cacheid, hashvalue);
      JavaInvalidate(cacheid, hashvalue, order);
    }

    method ReleaseUtilsObj()
      modifies this
      ensures Value() == Step(cat, old(Value()), Release)
    {
      ClearEntries(true, ServerCache, 0);
    }

    /** The callback at transaction end. */
    method XactCallback(event: XactEvent)
      modifies this
      ensures Value() == Step(cat, old(Value()), TransactionEnd(event))
    {
      if !xactGotConnection {
        return;
      }
      if event.Commit? || event.Abort? {
        ClearEntries(true, ServerCache, 0);
        results := {};
        xactGotConnection := false;
      }
    }
  }

  // ---------- what every run keeps ----------

  /** A Java entry is un-invalidated exactly when its connection is there. */
  predicate HeapValid(heap: seq<JConn>) {
    forall r :: 0 <= r < |heap| ==> heap[r].invalidate == !heap[r].open
  }

  /** A cached connection carries the hash values of its mapping and of the mapping's server. */
  predicate HashValid(cat: Catalog, s: State) {
    forall m :: m in s.hash ==>
      && s.hash[m] < |s.heap|
      && s.heap[s.hash[m]].serverHash == cat.serverHash(cat.serverOf(m))
      && s.heap[s.hash[m]].mappingHash == cat.mappingHash(m)
  }

  /** The entry is empty, or its object's Java connection is valid and has the entry's hash values. */
  predicate EntryValid(heap: seq<JConn>, e: Entry) {
    e.utils.Some? ==>
      && e.utils.value < |heap|
      && !heap[e.utils.value].invalidate
      && heap[e.utils.value].serverHash == e.serverHash
      && heap[e.utils.value].mappingHash == e.mappingHash
  }

  predicate TableValid(s: State) {
    forall k :: k in s.table ==> EntryValid(s.heap, s.table[k])
  }

  /** Anything live means that the flag is set. */
  predicate FlagValid(s: State) {
    && (forall k :: k in s.table && s.table[k].utils.Some? ==> s.got)
    && (s.results != {} ==> s.got)
  }

  predicate Coherent(cat: Catalog, s: State) {
    HeapValid(s.heap) && HashValid(cat, s) && TableValid(s) && FlagValid(s)
  }

  lemma JavaGetKeeps(cat: Catalog, s: State, umid: Oid)
    requires Coherent(cat, s)
    ensures
      var (after, r) := JavaGet(cat, s, umid);
      && HeapValid(after.heap) && HashValid(cat, after)
      && after.table == s.table && after.results == s.results
      && (forall k :: k in s.table ==> EntryValid(after.heap, s.table[k]))
      && EntryValid(after.heap, Entry(Some(r), cat.serverHash(cat.serverOf(umid)), cat.mappingHash(umid)))
  {
    if !Reusable(s, umid) {
      var after := JavaGet(cat, s, umid).0;
      assert forall r :: 0 <= r < |s.heap| ==> after.heap[r] == s.heap[r];
    }
  }

  lemma GetKeepsCoherent(cat: Catalog, s: State, userid: Oid, umid: Oid, result: GetResult)
    requires Coherent(cat, s)
    ensures Coherent(cat, GetStep(cat, s, userid, umid, result))
  {
    if EntryFor(s.table, Key(cat.serverOf(umid), userid)).utils.None? && !result.FailsBeforeJava? {
      JavaGetKeeps(cat, s, umid);
    }
  }

  /** Closing connections changes nothing but their state. */
  lemma {:induction false} CloseAllKeeps(heap: seq<JConn>, order: seq<nat>, r: nat)
    requires HeapValid(heap) && r < |heap|
    ensures HeapValid(CloseAll(heap, order))
    ensures CloseAll(heap, order)[r].serverHash == heap[r].serverHash
    ensures CloseAll(heap, order)[r].mappingHash == heap[r].mappingHash
    ensures r in order ==> CloseAll(heap, order)[r].invalidate
    ensures r !in order ==> CloseAll(heap, order)[r] == heap[r]
  {
    if order != [] {
      var k := |order| - 1;
      CloseAllKeeps(heap, order[..k], r);
      assert order == order[..k] + [order[k]];
    }
  }

  /** What is closed by an invalidation matches it. */
  lemma {:induction false} FirstMatchMatches(heap: seq<JConn>, order: seq<nat>, cacheid: CacheId, hashvalue: nat)
    ensures
      var f := FirstMatch(heap, order, cacheid, hashvalue);
      && (f.Some? ==> f.value in order && f.value < |heap| && Matches(heap[f.value], cacheid, hashvalue))
      && (f.None? ==> forall r :: r in order && r < |heap| ==> !Matches(heap[r], cacheid, hashvalue))
  {
    if order != [] {
      FirstMatchMatches(heap, order[1..], cacheid, hashvalue);
      assert order == [order[0]] + order[1..];
    }
  }

  /** Invalidation keeps hash values, and closes only what matches. */
  lemma JavaInvalidatedKeeps(heap: seq<JConn>, order: seq<nat>, cacheid: CacheId, hashvalue: nat, r: nat)
    requires HeapValid(heap) && r < |heap|
    ensures
      var after := JavaInvalidated(heap, order, cacheid, hashvalue);
      && HeapValid(after)
      && after[r].serverHash == heap[r].serverHash && after[r].mappingHash == heap[r].mappingHash
      && (after[r].invalidate ==> heap[r].invalidate || hashvalue == 0 || Matches(heap[r], cacheid, hashvalue))
  {
    CloseAllKeeps(heap, order, r);
    FirstMatchMatches(heap, order, cacheid, hashvalue);
  }

  /** Although Java closes only its first match while C clears every match, no C entry is left with a
      closed connection. */
  lemma InvalidateKeepsCoherent(cat: Catalog, s: State, cacheid: CacheId, hashvalue: nat, order: seq<nat>)
    requires Coherent(cat, s)
    ensures Coherent(cat, Step(cat, s, Invalidate(cacheid, hashvalue, order)))
  {
    var after := Step(cat, s, Invalidate(cacheid, hashvalue, order));
    if s.heap != [] {
      JavaInvalidatedKeeps(s.heap, order, cacheid, hashvalue, 0);
    } else {
      assert after.heap == [];
    }
    forall k | k in after.table
      ensures EntryValid(after.heap, after.table[k])
    {
      var e := s.table[k];
      assert EntryValid(s.heap, e);
      if e.utils.Some? {
        JavaInvalidatedKeeps(s.heap, order, cacheid, hashvalue, e.utils.value);
      }
    }
    forall m | m in after.hash
      ensures after.heap[s.hash[m]].serverHash == cat.serverHash(cat.serverOf(m))
      ensures after.heap[s.hash[m]].mappingHash == cat.mappingHash(m)
    {
      JavaInvalidatedKeeps(s.heap, order, cacheid, hashvalue, s.hash[m]);
    }
  }

  lemma StepKeepsCoherent(cat: Catalog, s: State, event: Event)
    requires Coherent(cat, s)
    ensures Coherent(cat, Step(cat, s, event))
  {
    match event {
      case Get(userid, umid, result) => GetKeepsCoherent(cat, s, userid, umid, result);
      case Invalidate(cacheid, hashvalue, order) => InvalidateKeepsCoherent(cat, s, cacheid, hashvalue, order);
      case _ =>
    }
  }

  function Run(cat: Catalog, s: State, events: seq<Event>): State {
    if events == [] then s else Step(cat, Run(cat, s, events[..|events| - 1]), events[|events| - 1])
  }

  /** Over every run of a backend: each live C entry's object holds a Java connection that is not
      invalidated, Java connections are un-invalidated exactly while open, and anything live means
      that the flag is set. */
  lemma {:induction false} RunsStayCoherent(cat: Catalog, events: seq<Event>)
    ensures Coherent(cat, Run(cat, START, events))
  {
    if events != [] {
      RunsStayCoherent(cat, events[..|events| - 1]);
      StepKeepsCoherent(cat, Run(cat, START, events[..|events| - 1]), events[|events| - 1]);
    }
  }

  // ---------- what each event does, in every run ----------

  /** The key under which a mapping's user is served. */
  function KeyFor(cat: Catalog, userid: Oid, umid: Oid): Key { Key(cat.serverOf(umid), userid) }

  /** The connection that is cached for the mapping can be used. */
  predicate CachedOpen(s: State, umid: Oid) {
    umid in s.hash && s.hash[umid] < |s.heap| && s.heap[s.hash[umid]].open
  }

  /** The object under the key has an open connection. */
  predicate ObjectOpen(s: State, key: Key) {
    HasObject(s, key) && s.table[key].utils.value < |s.heap| && s.heap[s.table[key].utils.value].open
  }

  /** Whatever happened before, a request leaves the entry with an object exactly if it had one or connecting
      succeeded. An object that is there is kept, and nothing connected for it. A new one holds the mapping's own
      connection, cached and open: the one that was cached if that was still open. */
  lemma RequestYieldsObject(cat: Catalog, events: seq<Event>, userid: Oid, umid: Oid, result: GetResult)
    ensures
      var s, key := Run(cat, START, events), KeyFor(cat, userid, umid);
      var after := Run(cat, START, events + [Get(userid, umid, result)]);
      && after.got && key in after.table && after.results == s.results
      && (HasObject(after, key) <==> HasObject(s, key) || result.Connected?)
      && (HasObject(s, key) ==> after == s.(got := true) && ObjectOpen(s, key))
      && (!HasObject(s, key) && result.Connected? ==>
            CachedOpen(after, umid) && after.table[key].utils == Some(after.hash[umid]))
      && (!HasObject(s, key) ==> after.table[key].serverHash == cat.serverHash(cat.serverOf(umid))
                                 && after.table[key].mappingHash == cat.mappingHash(umid))
      && (CachedOpen(s, umid) || result.FailsBeforeJava? ==> after.hash == s.hash && after.heap == s.heap)
  {
    var run := events + [Get(userid, umid, result)];
    assert run[..|run| - 1] == events;
    RunsStayCoherent(cat, events);
    RunsStayCoherent(cat, run);
  }

  /** A request touches no other entry, no other mapping's connection, and closes none. */
  lemma RequestFrame(cat: Catalog, s: State, userid: Oid, umid: Oid, result: GetResult)
    requires Coherent(cat, s)
    ensures
      var after := Step(cat, s, Get(userid, umid, result));
      && (forall k :: k != KeyFor(cat, userid, umid) ==>
            (k in after.table <==> k in s.table) && (k in s.table ==> after.table[k] == s.table[k]))
      && (forall m :: m != umid ==> (m in after.hash <==> m in s.hash) && (m in s.hash ==> after.hash[m] == s.hash[m]))
      && |s.heap| <= |after.heap| && after.heap[..|s.heap|] == s.heap
  {
  }

  /** An invalidation empties exactly the entries that match it and keeps all else of every entry; a zero hash value
      matches all. */
  lemma InvalidationEmptiesMatches(cat: Catalog, s: State, cacheid: CacheId, hashvalue: nat, order: seq<nat>, key: Key)
    requires key in s.table
    ensures
      var after, was := Step(cat, s, Invalidate(cacheid, hashvalue, order)), s.table[key];
      var hit := hashvalue == 0 || hashvalue == (if cacheid == ServerCache then was.serverHash else was.mappingHash);
      && after.table.Keys == s.table.Keys
      && after.table[key] == (if hit then Entry(None, was.serverHash, was.mappingHash) else was)
      && after.hash == s.hash && after.results == s.results && after.got == s.got
  {
  }

  /** Opening a result set needs an object; closing one leaves the others; neither touches a connection. Subtransactions
      and other stages of a transaction change nothing, and a release only empties the entries. */
  lemma OtherEventsKeep(cat: Catalog, s: State, event: Event)
    requires !event.Get? && !event.Invalidate?
    ensures
      var after := Step(cat, s, event);
      && after.hash == s.hash && after.heap == s.heap
      && (event.OpenResult? ==> after == s.(results := if HasObject(s, event.key) then s.results + {event.handle}
                                                       else s.results))
      && (event.CloseResult? ==> after == s.(results := s.results - {event.handle}))
      && (event.TransactionEnd? && (event.event.OtherEvent? || !s.got) ==> after == s)
      && (event.Release? ==> after.results == s.results && after.got == s.got)
      && (event.Release? || (event.TransactionEnd? && s.got && !event.event.OtherEvent?) ==>
            after.table.Keys == s.table.Keys
            && forall k :: k in s.table ==> after.table[k] == s.table[k].(utils := None))
  {
  }

  /** Nothing is held. */
  predicate Idle(s: State) {
    && (forall k :: k in s.table ==> s.table[k].utils.None?)
    && s.results == {} && !s.got
  }

  /** After COMMIT or ABORT of any transaction in any run, nothing is held: the quick exit never skips
      work. */
  lemma TransactionEndReleasesAll(cat: Catalog, events: seq<Event>, event: XactEvent)
    requires !event.OtherEvent?
    ensures Idle(Run(cat, START, events + [TransactionEnd(event)]))
  {
    var run := events + [TransactionEnd(event)];
    assert run[..|run| - 1] == events;
    RunsStayCoherent(cat, events);
  }

  // ---------- what invalidation misses ----------

  /** Every cached connection that matches has been invalidated. */
  ghost predicate AllInvalidated(heap: seq<JConn>, order: seq<nat>, cacheid: CacheId, hashvalue: nat) {
    forall r :: r in order && r < |heap| && Matches(heap[r], cacheid, hashvalue) ==> heap[r].invalidate
  }

  /** The connection is the first in the order that matches. */
  ghost predicate IsFirstMatch(heap: seq<JConn>, order: seq<nat>, cacheid: CacheId, hashvalue: nat, r: nat) {
    exists i :: 0 <= i < |order| && FirstAt(heap, order, cacheid, hashvalue, r, i)
  }

  predicate FirstAt(heap: seq<JConn>, order: seq<nat>, cacheid: CacheId, hashvalue: nat, r: nat, i: nat)
    requires i < |order|
  {
    order[i] == r && MatchesAt(heap, order, cacheid, hashvalue, i) &&
    forall j :: 0 <= j < i ==> !MatchesAt(heap, order, cacheid, hashvalue, j)
  }

  predicate MatchesAt(heap: seq<JConn>, order: seq<nat>, cacheid: CacheId, hashvalue: nat, i: nat)
    requires i < |order|
  {
    order[i] < |heap| &&
    hashvalue == if cacheid == ServerCache then heap[order[i]].serverHash else heap[order[i]].mappingHash
  }

  lemma {:induction false} FirstMatchIsFirst(heap: seq<JConn>, order: seq<nat>, cacheid: CacheId, hashvalue: nat,
                                             r: nat)
    ensures FirstMatch(heap, order, cacheid, hashvalue) == Some(r) <==>
            IsFirstMatch(heap, order, cacheid, hashvalue, r)
  {
    if order != [] && !MatchesAt(heap, order, cacheid, hashvalue, 0) {
      FirstMatchIsFirst(heap, order[1..], cacheid, hashvalue, r);
      FirstOfRest(heap, order, cacheid, hashvalue, r);
    } else if order != [] {
      assert FirstAt(heap, order, cacheid, hashvalue, order[0], 0);
    }
  }

  /** If the first does not match, the first match is that of the others. */
  lemma FirstOfRest(heap: seq<JConn>, order: seq<nat>, cacheid: CacheId, hashvalue: nat, r: nat)
    requires order != [] && !MatchesAt(heap, order, cacheid, hashvalue, 0)
    ensures IsFirstMatch(heap, order, cacheid, hashvalue, r) <==> IsFirstMatch(heap, order[1..], cacheid, hashvalue, r)
  {
    var more := order[1..];
    assert forall j :: 0 <= j < |more| ==>
             (MatchesAt(heap, more, cacheid, hashvalue, j) <==> MatchesAt(heap, order, cacheid, hashvalue, j + 1));
    if IsFirstMatch(heap, order, cacheid, hashvalue, r) {
      var i :| 0 <= i < |order| && FirstAt(heap, order, cacheid, hashvalue, r, i);
      assert FirstAt(heap, more, cacheid, hashvalue, r, i - 1);
    }
    if IsFirstMatch(heap, more, cacheid, hashvalue, r) {
      var i :| 0 <= i < |more| && FirstAt(heap, more, cacheid, hashvalue, r, i);
      forall j | 0 <= j < i + 1
        ensures !MatchesAt(heap, order, cacheid, hashvalue, j)
      {
        assert j > 0 ==> !MatchesAt(heap, more, cacheid, hashvalue, j - 1);
      }
      assert FirstAt(heap, order, cacheid, hashvalue, r, i + 1);
    }
  }

  /** What Java's invalidation closes is exactly the first match, or on a reset everything it visits; all else stays
      as it was. */
  lemma JavaInvalidationIsExact(heap: seq<JConn>, order: seq<nat>, cacheid: CacheId, hashvalue: nat, r: nat)
    requires HeapValid(heap) && r < |heap|
    ensures
      var after := JavaInvalidated(heap, order, cacheid, hashvalue);
      var hit := if hashvalue == 0 then r in order else IsFirstMatch(heap, order, cacheid, hashvalue, r);
      && |after| == |heap|
      && (!hit ==> after[r] == heap[r])
      && (hit ==> after[r] == heap[r].(open := false, invalidate := true))
  {
    FirstMatchIsFirst(heap, order, cacheid, hashvalue, r);
    CloseAllCloses(heap, order, r);
  }

  lemma {:induction false} CloseAllCloses(heap: seq<JConn>, order: seq<nat>, r: nat)
    requires r < |heap|
    ensures CloseAll(heap, order)[r] ==
            if r in order then heap[r].(open := false, invalidate := true) else heap[r]
  {
    if order != [] {
      var k := |order| - 1;
      CloseAllCloses(heap, order[..k], r);
      assert order == order[..k] + [order[k]];
    }
  }

  /** Java's invalidation reaches every matching connection if and only if the first match is the only
      one that was still valid. */
  lemma InvalidationCompleteIff(heap: seq<JConn>, order: seq<nat>, cacheid: CacheId, hashvalue: nat)
    requires HeapValid(heap) && hashvalue != 0
    ensures AllInvalidated(JavaInvalidated(heap, order, cacheid, hashvalue), order, cacheid, hashvalue)
            <==> forall r :: r in order && r < |heap| && Matches(heap[r], cacheid, hashvalue) && !heap[r].invalidate ==>
                   FirstMatch(heap, order, cacheid, hashvalue) == Some(r)
  {
    FirstMatchMatches(heap, order, cacheid, hashvalue);
    var after := JavaInvalidated(heap, order, cacheid, hashvalue);
    forall r | r in order && r < |heap|
      ensures Matches(after[r], cacheid, hashvalue) == Matches(heap[r], cacheid, hashvalue)
      ensures after[r].invalidate <==> heap[r].invalidate || FirstMatch(heap, order, cacheid, hashvalue) == Some(r)
    {
    }
  }

  /** When distinct mappings have distinct hash values, invalidating a mapping is always complete. */
  lemma MappingInvalidationComplete(cat: Catalog, s: State, umid: Oid, order: seq<nat>)
    requires Coherent(cat, s) && Legal(s, Invalidate(MappingCache, cat.mappingHash(umid), order))
    requires forall m :: cat.mappingHash(m) == cat.mappingHash(umid) ==> m == umid
    requires cat.mappingHash(umid) != 0
    ensures AllInvalidated(JavaInvalidated(s.heap, order, MappingCache, cat.mappingHash(umid)), order,
                           MappingCache, cat.mappingHash(umid))
  {
    var h := cat.mappingHash(umid);
    FirstMatchMatches(s.heap, order, MappingCache, h);
    forall r | r in order && r < |s.heap| && Matches(s.heap[r], MappingCache, h)
      ensures FirstMatch(s.heap, order, MappingCache, h) == Some(r)
    {
      var m :| m in s.hash && s.hash[m] == r;
      var f := FirstMatch(s.heap, order, MappingCache, h).value;
      var n :| n in s.hash && s.hash[n] == f;
      assert m == umid && n == umid;
    }
    InvalidationCompleteIff(s.heap, order, MappingCache, h);
  }

  /** Two mappings of one server: after the server changes, the second mapping's connection is still
      cached as valid, and the next request for it is served by the stale connection. */
  lemma StaleConnectionIsReused(cat: Catalog, userid: Oid, m: Oid, n: Oid)
    requires m != n && cat.serverOf(m) == cat.serverOf(n) && cat.serverHash(cat.serverOf(m)) != 0
    ensures
      var changed := Invalidate(ServerCache, cat.serverHash(cat.serverOf(m)), [0, 1]);
      var s := Run(cat, START, [Get(userid, m, Connected), Release, Get(userid, n, Connected)]);
      && Legal(s, changed)
      && Reusable(Step(cat, s, changed), n)
      && JavaGet(cat, Step(cat, s, changed), n).1 == s.hash[n]
  {
    var e1, e2, e3 := Get(userid, m, Connected), Release, Get(userid, n, Connected);
    assert [e1][..0] == [] && [e1, e2][..1] == [e1] && [e1, e2, e3][..2] == [e1, e2];
    var s1 := Step(cat, START, e1);
    var s2 := Step(cat, s1, e2);
    var s := Step(cat, s2, e3);
    assert Run(cat, START, [e1]) == s1;
    assert Run(cat, START, [e1, e2]) == s2;
    assert Run(cat, START, [e1, e2, e3]) == s;
    assert s.hash == map[m := 0, n := 1];
    assert s.hash[m] in s.hash.Values && s.hash[n] in s.hash.Values;
    assert Matches(s.heap[0], ServerCache, cat.serverHash(cat.serverOf(m)));
  }
}
