/** The life cycle of partitions: one active partition per schema takes the incoming
    slices until it is full or timed out, then it is persisted. */
module PartitionLifecycle {
  type Id = nat
  type Schema = string

  datatype Slice = Slice(rows: nat, data: int)

  datatype ActivePartition = ActivePartition(capacity: nat, id: Id)

  // ----- History

  /** All partitions that were ever created for one schema, the latest at the end,
      each with the slices that were sent to it. */
  datatype Chain = Empty | Parts(init: Chain, id: Id, slices: seq<Slice>)

  function Rows(slices: seq<Slice>): nat
  {
    if slices == [] then 0 else Rows(slices[..|slices| - 1]) + slices[|slices| - 1].rows
  }

  /** The number of slices that have rows. */
  function Filled(slices: seq<Slice>): nat
  {
    if slices == [] then 0 else Filled(slices[..|slices| - 1]) + if slices[|slices| - 1].rows > 0 then 1 else 0
  }

  lemma SendRows(slices: seq<Slice>, x: Slice)
    ensures Rows(slices + [x]) == Rows(slices) + x.rows
    ensures Filled(slices + [x]) == Filled(slices) + if x.rows > 0 then 1 else 0
    ensures slices == [] ==> Rows(slices) == Filled(slices) == 0
  {
    assert (slices + [x])[..|slices|] == slices;
  }

  /** The rows of a partition do not exceed its capacity, unless all of them come from
      a single slice. */
  predicate Fits(slices: seq<Slice>, capacity: nat)
  {
    Rows(slices) <= capacity || Filled(slices) == 1
  }

  predicate AllFit(c: Chain, capacity: nat)
  {
    c.Parts? ==> Fits(c.slices, capacity) && AllFit(c.init, capacity)
  }

  predicate Has(c: Chain, id: Id)
  {
    c.Parts? && (c.id == id || Has(c.init, id))
  }

  predicate Distinct(c: Chain)
  {
    c.Parts? ==> !Has(c.init, c.id) && Distinct(c.init)
  }

  function Sent(c: Chain): seq<Slice>
  {
    if c.Empty? then [] else Sent(c.init) + c.slices
  }

  // ----- The state

  /** The maps and sets of the index, and as history: the partitions of each schema,
      the schema of each partition, the slices received for each schema, and the
      partitions whose persisting failed or that were erased. */
  datatype State = State(
    partitionCapacity: nat,
    active: map<Schema, ActivePartition>,
    unpersisted: map<Id, Schema>,
    persisted: set<Id>,
    gone: set<Id>,
    chains: map<Schema, Chain>,
    home: map<Id, Schema>,
    received: map<Schema, seq<Slice>>)
  {
    function ChainOf(s: Schema): Chain {
      if s in chains then chains[s] else Empty
    }

    /** The slices in the latest partition of a schema. */
    function Latest(s: Schema): seq<Slice> {
      if ChainOf(s).Parts? then ChainOf(s).slices else []
    }

    function Received(s: Schema): seq<Slice> {
      if s in received then received[s] else []
    }

    /** What is left of the capacity tells what is in the active partition. */
    predicate Room(capacity: nat, slices: seq<Slice>) {
      if Rows(slices) <= partitionCapacity then capacity == partitionCapacity - Rows(slices)
      else capacity == 0 && Filled(slices) == 1
    }

    /** The active partition of a schema is its latest one. */
    predicate ActiveIsLast(s: Schema) {
      s in active ==>
        var c := ChainOf(s);
        c.Parts? && c.id == active[s].id && Room(active[s].capacity, c.slices)
    }

    /** All slices of a schema went to its partitions, in order and once each. */
    predicate Stored(s: Schema) {
      && Sent(ChainOf(s)) == Received(s)
      && Distinct(ChainOf(s))
      && AllFit(ChainOf(s), partitionCapacity)
    }

    predicate IsActive(p: Id) {
      p in home && home[p] in active && active[home[p]].id == p
    }

    /** Each partition is in exactly one place. */
    predicate OnePlace(p: Id) {
      && (p in home ==> IsActive(p) || p in unpersisted || p in persisted || p in gone)
      && (IsActive(p) ==> p !in unpersisted && p !in persisted && p !in gone)
      && (p in unpersisted ==> p !in persisted && p !in gone && p in home && home[p] == unpersisted[p])
      && (p in persisted ==> p !in gone && p in home)
      && (p in gone ==> p in home)
    }

    predicate AtHome(s: Schema, p: Id) {
      Has(ChainOf(s), p) <==> p in home && home[p] == s
    }

    ghost predicate Valid() {
      && (forall s :: ActiveIsLast(s) && Stored(s))
      && (forall p :: OnePlace(p))
      && (forall s, p :: AtHome(s, p))
    }

    // ----- Steps

    function Create(s: Schema, id: Id): State {
      this.(active := active[s := ActivePartition(partitionCapacity, id)],
            chains := chains[s := Parts(ChainOf(s), id, [])],
            home := home[id := s])
    }

    function Decommission(s: Schema): State
      requires s in active
    {
      this.(active := active - {s}, unpersisted := unpersisted[active[s].id := s])
    }

    /** The timeout of a partition fires. */
    function TimedOut(s: Schema, id: Id): State
    {
      if s in active && active[s].id == id then Decommission(s) else this
    }

    function Send(s: Schema, x: Slice): State
      requires s in active && ChainOf(s).Parts?
    {
      var c := ChainOf(s);
      var left := if active[s].capacity == partitionCapacity && x.rows > active[s].capacity then 0
                  else if x.rows <= active[s].capacity then active[s].capacity - x.rows else 0;
      this.(active := active[s := active[s].(capacity := left)],
            chains := chains[s := c.(slices := c.slices + [x])],
            received := received[s := Received(s) + [x]])
    }

    /** Persisting a partition has ended. */
    function Persisted(p: Id, ok: bool): State
    {
      if ok then this.(unpersisted := unpersisted - {p}, persisted := persisted + {p})
      else this.(unpersisted := unpersisted - {p}, gone := gone + {p})
    }

    function Erase(p: Id): State
    {
      this.(persisted := persisted - {p}, gone := gone + {p})
    }
  }

  lemma CreateValid(st: State, s: Schema, id: Id)
    requires st.Valid() && s !in st.active && id !in st.home
    ensures st.Create(s, id).Valid()
  {
    var st' := st.Create(s, id);
    assert st.AtHome(s, id) && st.OnePlace(id);
    forall t ensures st'.ActiveIsLast(t) && st'.Stored(t) {
      assert st.ActiveIsLast(t) && st.Stored(t);
      assert Sent(st.ChainOf(s)) + [] == Sent(st.ChainOf(s));
    }
    forall p ensures st'.OnePlace(p) {
      assert st.OnePlace(p);
      assert st.ActiveIsLast(s);
    }
    forall t, p ensures st'.AtHome(t, p) {
      assert st.AtHome(t, p);
    }
  }

  lemma DecommissionValid(st: State, s: Schema)
    requires st.Valid() && s in st.active
    ensures st.Decommission(s).Valid()
  {
    var st', id := st.Decommission(s), st.active[s].id;
    assert st.ActiveIsLast(s) && st.AtHome(s, id) && st.OnePlace(id);
    forall t ensures st'.ActiveIsLast(t) && st'.Stored(t) {
      assert st.ActiveIsLast(t) && st.Stored(t);
    }
    forall p ensures st'.OnePlace(p) {
      assert st.OnePlace(p);
    }
    forall t, p ensures st'.AtHome(t, p) {
      assert st.AtHome(t, p);
    }
  }

  /** A slice goes to a partition that has room for it, or to a fresh one. */
  predicate MaySend(st: State, s: Schema, x: Slice)
  {
    && s in st.active && st.ChainOf(s).Parts?
    && (x.rows <= st.active[s].capacity || st.ChainOf(s).slices == [])
  }

  lemma SendRoom(st: State, s: Schema, x: Slice)
    requires MaySend(st, s, x) && st.Stored(s) && st.ActiveIsLast(s)
    ensures st.Send(s, x).ActiveIsLast(s)
    ensures Fits(st.ChainOf(s).slices + [x], st.partitionCapacity)
  {
    hide Rows, Filled;
    var c := st.ChainOf(s);
    SendRows(c.slices, x);
  }

  lemma SendStored(st: State, s: Schema, x: Slice)
    requires MaySend(st, s, x) && st.Stored(s) && st.ActiveIsLast(s)
    ensures st.Send(s, x).Stored(s)
  {
    hide Rows, Filled, Fits;
    var c := st.ChainOf(s);
    SendRoom(st, s, x);
    assert Sent(c.init) + (c.slices + [x]) == (Sent(c.init) + c.slices) + [x];
  }

  lemma SendValid(st: State, s: Schema, x: Slice)
    requires st.Valid() && MaySend(st, s, x)
    ensures st.Send(s, x).Valid()
  {
    hide Rows, Filled, Fits, Distinct, AllFit, Sent;
    var st' := st.Send(s, x);
    assert st.ActiveIsLast(s) && st.Stored(s);
    forall t ensures st'.ActiveIsLast(t) && st'.Stored(t) {
      assert st.ActiveIsLast(t) && st.Stored(t);
      SendRoom(st, s, x);
      SendStored(st, s, x);
    }
    forall p ensures st'.OnePlace(p) {
      assert st.OnePlace(p);
    }
    forall t, p ensures st'.AtHome(t, p) {
      assert st.AtHome(t, p);
    }
  }

  lemma PersistedValid(st: State, p: Id, ok: bool)
    requires st.Valid() && p in st.unpersisted
    ensures st.Persisted(p, ok).Valid()
  {
    var st' := st.Persisted(p, ok);
    forall t ensures st'.ActiveIsLast(t) && st'.Stored(t) {
      assert st.ActiveIsLast(t) && st.Stored(t);
    }
    assert st.OnePlace(p);
    forall q ensures st'.OnePlace(q) {
      assert st.OnePlace(q);
    }
    forall t, q ensures st'.AtHome(t, q) {
      assert st.AtHome(t, q);
    }
  }

  lemma EraseValid(st: State, p: Id)
    requires st.Valid() && p in st.persisted
    ensures st.Erase(p).Valid()
  {
    var st' := st.Erase(p);
    forall t ensures st'.ActiveIsLast(t) && st'.Stored(t) {
      assert st.ActiveIsLast(t) && st.Stored(t);
    }
    forall q ensures st'.OnePlace(q) {
      assert st.OnePlace(q);
    }
    forall t, q ensures st'.AtHome(t, q) {
      assert st.AtHome(t, q);
    }
  }

  // ----- The index

  class IndexState {
    const partitionCapacity: nat
    var activePartitions: map<Schema, ActivePartition>
    var unpersisted: map<Id, Schema>
    var persistedPartitions: set<Id>
    ghost var gone: set<Id>
    ghost var chains: map<Schema, Chain>
    ghost var home: map<Id, Schema>
    ghost var received: map<Schema, seq<Slice>>

    ghost function View(): State
      reads this
    {
      State(partitionCapacity, activePartitions, unpersisted, persistedPartitions, gone, chains, home, received)
    }

    ghost predicate Valid()
      reads this
    {
      View().Valid()
    }

    constructor (partitionCapacity: nat)
      ensures Valid() && this.partitionCapacity == partitionCapacity && received == map[]
    {
      this.partitionCapacity := partitionCapacity;
      activePartitions, unpersisted, persistedPartitions := map[], map[], {};
      gone, chains, home, received := {}, map[], map[], map[];
    }

    /** The id is random, so it has not been used before. */
    method CreateActivePartition(schema: Schema, id: Id)
      requires Valid() && schema !in activePartitions && id !in home
      modifies this`activePartitions, this`chains, this`home
      ensures Valid() && View() == old(View()).Create(schema, id)
      ensures activePartitions == old(activePartitions)[schema := ActivePartition(partitionCapacity, id)]
    {
      hide State.Valid;
      CreateValid(View(), schema, id);
      chains := chains[schema := Parts(View().ChainOf(schema), id, [])];
      home := home[id := schema];
      activePartitions := activePartitions[schema := ActivePartition(partitionCapacity, id)];
      assert View() == old(View()).Create(schema, id);
    }

    /** Moves the active partition to the unpersisted ones and starts to persist it. */
    method DecommissionActivePartition(schema: Schema)
      requires Valid() && schema in activePartitions
      modifies this`activePartitions, this`unpersisted
      ensures Valid() && View() == old(View()).Decommission(schema)
      ensures schema !in activePartitions && unpersisted == old(unpersisted)[old(activePartitions)[schema].id := schema]
    {
      hide State.Valid;
      DecommissionValid(View(), schema);
      var id := activePartitions[schema].id;
      unpersisted := unpersisted[id := schema];
      activePartitions := activePartitions - {schema};
      assert View() == old(View()).Decommission(schema);
    }

    /** The slice goes to the active partition of its schema. If it does not fit, that
        partition is decommissioned first and a new one takes the slice. */
    method HandleSlice(schema: Schema, x: Slice, id: Id)
      requires Valid() && id !in home
      modifies this`activePartitions, this`unpersisted, this`chains, this`home, this`received
      ensures Valid() && schema in activePartitions
      ensures received == old(received)[schema := old(View()).Received(schema) + [x]]
      ensures View().ChainOf(schema).Parts? && View().ChainOf(schema).id == activePartitions[schema].id
      ensures if schema in old(activePartitions) && x.rows <= old(activePartitions)[schema].capacity
              then activePartitions[schema].id == old(activePartitions)[schema].id && unpersisted == old(unpersisted)
                   && View().Latest(schema) == old(View()).Latest(schema) + [x]
              else activePartitions[schema].id == id && View().Latest(schema) == [x]
      ensures schema in old(activePartitions) && x.rows > old(activePartitions)[schema].capacity ==>
                unpersisted == old(unpersisted)[old(activePartitions)[schema].id := schema]
      ensures forall s :: s in activePartitions && s != schema ==>
          s in old(activePartitions) && activePartitions[s] == old(activePartitions)[s]
    {
      hide State.Valid, State.Send;
      if schema !in activePartitions {
        CreateActivePartition(schema, id);
      } else if x.rows > activePartitions[schema].capacity {
        DecommissionActivePartition(schema);
        CreateActivePartition(schema, id);
      }
      LastActive(View(), schema);
      SendSlice(schema, x);
    }

    method SendSlice(schema: Schema, x: Slice)
      requires Valid() && MaySend(View(), schema, x)
      modifies this`activePartitions, this`chains, this`received
      ensures Valid() && View() == old(View()).Send(schema, x)
      ensures schema in activePartitions && activePartitions[schema].id == old(activePartitions)[schema].id
      ensures activePartitions == old(activePartitions)[schema := activePartitions[schema]]
      ensures View().ChainOf(schema).Parts? && View().ChainOf(schema).id == activePartitions[schema].id
      ensures View().ChainOf(schema).slices == old(View()).ChainOf(schema).slices + [x]
      ensures received == old(received)[schema := old(View()).Received(schema) + [x]]
    {
      hide State.Valid, State.Room;
      LastActive(View(), schema);
      SendValid(View(), schema, x);
      RoomLeft(View(), schema);
      var active := activePartitions[schema];
      ghost var chain := chains[schema];
      chains := chains[schema := chain.(slices := chain.slices + [x])];
      received := received[schema := old(View()).Received(schema) + [x]];
      if active.capacity == partitionCapacity && x.rows > active.capacity {
        activePartitions := activePartitions[schema := active.(capacity := 0)];
      } else {
        assert active.capacity >= x.rows;
        activePartitions := activePartitions[schema := active.(capacity := active.capacity - x.rows)];
      }
      assert View() == old(View()).Send(schema, x);
    }

    /** The timeout of a partition. If the partition was rotated before, nothing
        happens to the one that has taken its place. */
    method ActivePartitionTimeout(schema: Schema, id: Id)
      requires Valid()
      modifies this`activePartitions, this`unpersisted
      ensures Valid()
      ensures View() == old(View()).TimedOut(schema, id)
      ensures if schema in old(activePartitions) && old(activePartitions)[schema].id == id
              then activePartitions == old(activePartitions) - {schema} && unpersisted == old(unpersisted)[id := schema]
              else View() == old(View())
    {
      hide State.Valid;
      if schema !in activePartitions || activePartitions[schema].id != id {
        return;
      }
      DecommissionActivePartition(schema);
    }

    /** Decommissions all active partitions. */
    method Flush()
      requires Valid()
      modifies this`activePartitions, this`unpersisted
      ensures Valid() && activePartitions == map[] && received == old(received) && chains == old(chains)
      ensures forall s :: s in old(activePartitions) ==>
                old(activePartitions)[s].id in unpersisted && unpersisted[old(activePartitions)[s].id] == s
      ensures forall p :: p in old(unpersisted) ==> p in unpersisted && unpersisted[p] == old(unpersisted)[p]
    {
      hide State.Valid;
      var schemas := activePartitions.Keys;
      while schemas != {}
        invariant Valid() && schemas == activePartitions.Keys <= old(activePartitions).Keys
        invariant forall s :: s in activePartitions ==> activePartitions[s] == old(activePartitions)[s]
        invariant forall s :: s in old(activePartitions) && s !in schemas ==>
          old(activePartitions)[s].id in unpersisted && unpersisted[old(activePartitions)[s].id] == s
        invariant forall p :: p in old(unpersisted) ==> p in unpersisted && unpersisted[p] == old(unpersisted)[p]
        decreases |schemas|
      {
        var s :| s in schemas;
        NotYetUnpersisted(View(), s);
        DecommissionActivePartition(s);
        schemas := schemas - {s};
      }
    }

    /** The answer to persisting a partition and adding it to the catalog. A partition
        for which that fails is evicted. */
    method PersistDone(id: Id, ok: bool)
      requires Valid() && id in unpersisted
      modifies this`unpersisted, this`persistedPartitions, this`gone
      ensures Valid() && View() == old(View()).Persisted(id, ok)
      ensures id !in unpersisted && (id in persistedPartitions <==> ok) && (id in gone <==> !ok)
    {
      hide State.Valid;
      PersistedValid(View(), id, ok);
      UnpersistedOnly(View(), id);
      unpersisted := unpersisted - {id};
      if ok {
        persistedPartitions := persistedPartitions + {id};
      } else {
        gone := gone + {id};
      }
      assert View() == old(View()).Persisted(id, ok);
    }

    method Erase(id: Id)
      requires Valid() && id in persistedPartitions
      modifies this`persistedPartitions, this`gone
      ensures Valid() && View() == old(View()).Erase(id)
    {
      hide State.Valid;
      EraseValid(View(), id);
      persistedPartitions := persistedPartitions - {id};
      gone := gone + {id};
      assert View() == old(View()).Erase(id);
    }
  }

  lemma UnpersistedOnly(st: State, p: Id)
    requires st.Valid() && p in st.unpersisted
    ensures p !in st.persisted && p !in st.gone
  {
    assert st.OnePlace(p);
  }

  lemma LastActive(st: State, s: Schema)
    requires st.Valid() && s in st.active
    ensures s in st.chains && st.ChainOf(s).Parts? && st.ChainOf(s).id == st.active[s].id
    ensures st.Room(st.active[s].capacity, st.ChainOf(s).slices)
  {
    assert st.ActiveIsLast(s);
  }

  lemma RoomLeft(st: State, s: Schema)
    requires st.Valid() && s in st.active
    ensures st.ChainOf(s).Parts? && (st.ChainOf(s).slices == [] ==> st.active[s].capacity == st.partitionCapacity)
  {
    LastActive(st, s);
  }

  lemma NotYetUnpersisted(st: State, s: Schema)
    requires st.Valid() && s in st.active
    ensures st.active[s].id !in st.unpersisted
  {
    assert st.ActiveIsLast(s) && st.AtHome(s, st.active[s].id) && st.OnePlace(st.active[s].id);
  }

  // ----- Steps over time

  datatype Step =
    | NewPartition(s: Schema, id: Id)
    | Rotate(s: Schema)
    | Store(s: Schema, x: Slice)
    | Finish(id: Id, ok: bool)
    | Remove(id: Id)

  predicate Enabled(st: State, a: Step)
  {
    match a
    case NewPartition(s, id) => s !in st.active && id !in st.home
    case Rotate(s) => s in st.active
    case Store(s, x) => MaySend(st, s, x)
    case Finish(id, _) => id in st.unpersisted
    case Remove(id) => id in st.persisted
  }

  function Next(st: State, a: Step): State
    requires Enabled(st, a)
  {
    match a
    case NewPartition(s, id) => st.Create(s, id)
    case Rotate(s) => st.Decommission(s)
    case Store(s, x) => st.Send(s, x)
    case Finish(id, ok) => st.Persisted(id, ok)
    case Remove(id) => st.Erase(id)
  }

  /** The state after some steps, up to the first one that is not enabled. */
  function Later(st: State, steps: seq<Step>): State
    decreases |steps|
  {
    if steps == [] || !Enabled(st, steps[0]) then st else Later(Next(st, steps[0]), steps[1..])
  }

  lemma NextValid(st: State, a: Step)
    requires st.Valid() && Enabled(st, a)
    ensures Next(st, a).Valid()
  {
    hide State.Valid, State.Create, State.Decommission, State.Send, State.Persisted, State.Erase;
    match a
    case NewPartition(s, id) => CreateValid(st, s, id);
    case Rotate(s) => DecommissionValid(st, s);
    case Store(s, x) => SendValid(st, s, x);
    case Finish(id, ok) => PersistedValid(st, id, ok);
    case Remove(id) => EraseValid(st, id);
  }

  /** A partition that has been active and no longer is. */
  predicate Rotated(st: State, p: Id)
  {
    p in st.home && !st.IsActive(p)
  }

  lemma StaysRotated(st: State, a: Step, p: Id)
    requires st.Valid() && Enabled(st, a) && Rotated(st, p)
    ensures Rotated(Next(st, a), p)
  {
  }

  /** It never becomes active again. */
  lemma {:induction false} NeverActiveAgain(st: State, steps: seq<Step>, p: Id)
    requires st.Valid() && Rotated(st, p)
    ensures Later(st, steps).Valid() && Rotated(Later(st, steps), p)
    decreases |steps|
  {
    hide State.Valid, Rotated, Next, Enabled;
    if steps != [] && Enabled(st, steps[0]) {
      NextValid(st, steps[0]);
      StaysRotated(st, steps[0], p);
      NeverActiveAgain(Next(st, steps[0]), steps[1..], p);
    }
  }

  // ----- Main results

  /** The timeout of a partition that was rotated before changes nothing, whenever it
      fires and whichever partition has taken its place. */
  lemma StaleTimeout(st: State, steps: seq<Step>, s: Schema, p: Id)
    requires st.Valid() && Rotated(st, p)
    ensures Later(st, steps).TimedOut(s, p) == Later(st, steps)
  {
    hide Later;
    NeverActiveAgain(st, steps, p);
    var st' := Later(st, steps);
    assert st'.ActiveIsLast(s) && st'.AtHome(s, p);
  }

  /** The slices sent to a partition of a chain. */
  function SlicesOf(c: Chain, id: Id): seq<Slice>
    requires Has(c, id)
  {
    if c.id == id then c.slices else SlicesOf(c.init, id)
  }

  lemma {:induction false} EachFits(c: Chain, id: Id, capacity: nat)
    requires AllFit(c, capacity) && Has(c, id)
    ensures Fits(SlicesOf(c, id), capacity)
  {
    if c.id != id {
      EachFits(c.init, id, capacity);
    }
  }

  /** In every valid state: the partitions of a schema hold the slices received for it,
      in order and once each; a partition belongs to one schema, is in exactly one
      place, and holds at most its capacity or the rows of one slice. */
  lemma Lifecycle(st: State, s: Schema, p: Id)
    requires st.Valid()
    ensures Sent(st.ChainOf(s)) == st.Received(s)
    ensures Has(st.ChainOf(s), p) <==> p in st.home && st.home[p] == s
    ensures Has(st.ChainOf(s), p) ==> Fits(SlicesOf(st.ChainOf(s), p), st.partitionCapacity)
    ensures p in st.home ==>
              (if st.IsActive(p) then 1 else 0) + (if p in st.unpersisted then 1 else 0)
              + (if p in st.persisted then 1 else 0) + (if p in st.gone then 1 else 0) == 1
    ensures p !in st.home ==> p !in st.unpersisted && p !in st.persisted && p !in st.gone
  {
    assert st.Stored(s) && st.OnePlace(p) && st.AtHome(s, p);
    if Has(st.ChainOf(s), p) {
      EachFits(st.ChainOf(s), p, st.partitionCapacity);
    }
  }
}
