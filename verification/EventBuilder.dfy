/** Building batches of events with different signatures. Each signature has a
    builder of its own; in ordered mode, the builder of the previous event is
    flushed before an event goes to another one. */
module EventBuilder {
  /** An event with the signature and the schema that the policy finds for it. */
  datatype Event = Event(signature: string, schema: string, data: int)

  datatype Option<T> = None | Some(value: T)

  /** A series builder finishes its events when a new one conflicts with their type. */
  datatype SeriesBuilder = SeriesBuilder(finished: seq<Event>, open: seq<Event>) {
    function Events(): seq<Event> {
      finished + open
    }

    function Add(e: Event, conflict: bool): SeriesBuilder {
      if conflict then SeriesBuilder(finished + open, [e]) else SeriesBuilder(finished, open + [e])
    }

    function RemoveLast(): SeriesBuilder {
      if |open| > 0 then SeriesBuilder(finished, open[..|open| - 1]) else this
    }
  }

  const EMPTY := SeriesBuilder([], [])

  datatype Entry = Entry(schema: string, builder: SeriesBuilder, flushed: int, unused: bool)

  /** The first free entry from an index on. */
  function FirstFree(entries: seq<Entry>, i: nat): (free: Option<nat>)
    requires i <= |entries|
    ensures free.Some? ==> i <= free.value < |entries| && entries[free.value].unused
    ensures forall k :: i <= k < (if free.Some? then free.value else |entries|) ==> !entries[k].unused
    decreases |entries| - i
  {
    if i == |entries| then None else if entries[i].unused then Some(i) else FirstFree(entries, i + 1)
  }

  // ----- The events of one signature

  function Of(es: seq<Event>, s: string): (r: seq<Event>)
  {
    if es == [] then []
    else Of(es[..|es| - 1], s) + (if es[|es| - 1].signature == s then [es[|es| - 1]] else [])
  }

  lemma OfOne(es: seq<Event>, e: Event, s: string)
    ensures Of(es + [e], s) == Of(es, s) + (if e.signature == s then [e] else [])
    ensures Of([e], s) == if e.signature == s then [e] else []
  {
    assert (es + [e])[..|es|] == es;
    assert [e][..0] == [];
  }

  lemma {:induction false} OfConcat(a: seq<Event>, b: seq<Event>, s: string)
    ensures Of(a + b, s) == Of(a, s) + Of(b, s)
  {
    if b == [] {
      assert a + b == a;
    } else {
      var init, last := b[..|b| - 1], b[|b| - 1];
      assert b == init + [last] && a + b == (a + init) + [last];
      OfConcat(a, init, s);
      OfOne(a + init, last, s);
      OfOne(init, last, s);
      Assoc(Of(a, s), Of(init, s), if last.signature == s then [last] else []);
    }
  }

  predicate Uniform(es: seq<Event>, t: string)
  {
    forall k :: 0 <= k < |es| ==> es[k].signature == t
  }

  lemma {:induction false} OfUniform(es: seq<Event>, t: string, s: string)
    requires Uniform(es, t)
    ensures Of(es, s) == if s == t then es else []
  {
    if es != [] {
      var init := es[..|es| - 1];
      assert es == init + [es[|es| - 1]];
      OfUniform(init, t, s);
    }
  }

  lemma Assoc(a: seq<Event>, b: seq<Event>, c: seq<Event>)
    ensures (a + b) + c == a + (b + c)
    ensures [] + a == a && a + [] == a
  {
  }

  /** Events of one signature leave their builder and become ready. */
  lemma FlushStream(yielded: seq<Event>, ready: seq<Event>, events: seq<Event>, t: string, live: seq<Event>,
                    pending: seq<Event>,
                    input: seq<Event>, s: string)
    requires Of(yielded + ready, s) + live + Of(pending, s) == Of(input, s)
    requires Uniform(events, t)
    requires s == t && events != [] ==> live == events
    ensures Of(yielded + (ready + events), s) + (if s == t && events != [] then [] else live) + Of(pending, s)
        == Of(input, s)
  {
    hide Of;
    Assoc(yielded, ready, events);
    OfConcat(yielded + ready, events, s);
    OfUniform(events, t, s);
  }

  /** The events without the last one of a signature. */
  function DropLastOf(es: seq<Event>, s: string): (r: seq<Event>)
  {
    if es == [] then []
    else if es[|es| - 1].signature == s then es[..|es| - 1]
    else DropLastOf(es[..|es| - 1], s) + [es[|es| - 1]]
  }

  lemma {:induction false} OfDropLast(es: seq<Event>, t: string, s: string)
    ensures t != s ==> Of(DropLastOf(es, t), s) == Of(es, s)
    ensures t == s && Of(es, s) != [] ==> Of(DropLastOf(es, t), s) == Of(es, s)[..|Of(es, s)| - 1]
  {
    if es != [] {
      var init, last := es[..|es| - 1], es[|es| - 1];
      assert es == init + [last];
      OfDropLast(init, t, s);
      OfOne(init, last, s);
      OfOne(DropLastOf(init, t), last, s);
    }
  }

  // ----- Clock

  /** A later reading of the monotonic clock. */
  method Clock(after: int) returns (now: int)
    ensures now >= after
  {
    now :| now >= after;
  }

  predicate TimedOut(age: int, timeout: int)
  {
    age >= timeout
  }

  predicate Stale(age: int, timeout: int)
  {
    age >= 10 * timeout
  }

  /** What is stale has timed out, whatever its age, if and only if the timeout is
      not negative. */
  lemma StaleIsTimedOut(timeout: int)
    ensures (forall age :: Stale(age, timeout) ==> TimedOut(age, timeout)) <==> timeout >= 0
  {
    if timeout < 0 {
      assert Stale(10 * timeout, timeout) && !TimedOut(10 * timeout, timeout);
    }
  }

  // ----- The state and its invariant

  /** The fields of the builder. In addition: the last reading of the clock, for each
      entry the signature that it was last used for, the events that came in (without
      the removed ones), and those that were handed out. */
  datatype State = State(
    ordered: bool,
    timeout: int,
    clock: int,
    signatureMap: map<string, nat>,
    entries: seq<Entry>,
    ready: seq<Event>,
    pending: Option<Event>,
    active: nat,
    owners: seq<string>,
    input: seq<Event>,
    yielded: seq<Event>)
  {
    function Events(i: nat): seq<Event>
      requires i < |entries|
    {
      entries[i].builder.Events()
    }

    function Live(s: string): seq<Event>
    {
      if s in signatureMap && signatureMap[s] < |entries| then Events(signatureMap[s]) else []
    }

    function Pending(): seq<Event>
    {
      if pending.Some? then [pending.value] else []
    }

    /** The active builder has an event that can still be removed. */
    predicate HasOpen()
    {
      active < |entries| == |owners| && |entries[active].builder.open| > 0
    }

    function Buffered(): seq<Event>
    {
      if active < |entries| then Events(active) else []
    }

    /** An entry has events of one signature only, and only if it is mapped to that. */
    predicate Owned(i: nat)
      requires i < |entries| == |owners|
    {
      && Uniform(Events(i), owners[i])
      && (Events(i) != [] ==> owners[i] in signatureMap && signatureMap[owners[i]] == i)
    }

    predicate Mapped(s: string)
      requires |entries| == |owners|
    {
      s in signatureMap ==>
        var i := signatureMap[s];
        i < |entries| && !entries[i].unused && owners[i] == s
    }

    ghost predicate Indexed()
    {
      && |entries| == |owners|
      && (forall s :: Mapped(s))
      && (forall i :: 0 <= i < |entries| ==> Owned(i))
      && (active < |entries| || (entries == [] && active == 0))
    }

    /** What was yielded, is ready, is in its builder, and is pending of one
        signature are the events that came in, in their order. */
    predicate Stream(s: string)
    {
      Of(yielded + ready, s) + Live(s) + Of(Pending(), s) == Of(input, s)
    }

    /** Only the active builder has events, and all events are in order. */
    ghost predicate InOrder()
    {
      && (forall i :: 0 <= i < |entries| && i != active ==> Events(i) == [])
      && yielded + ready + Buffered() + Pending() == input
    }

    ghost predicate Valid()
    {
      && Indexed()
      && (forall s :: Stream(s))
      && (ordered ==> InOrder())
    }

    // ----- Steps

    function Flush(i: nat, now: int): State
      requires i < |entries|
    {
      this.(entries := entries[i := entries[i].(builder := EMPTY, flushed := now)], ready := ready + Events(i),
        clock := now)
    }

    /** The entry of a signature: its own one, or a free one, or a new one. */
    function Register(e: Event, free: Option<nat>, now: int): (State, nat)
      requires free.Some? ==> free.value < |entries|
      requires e.signature in signatureMap ==> signatureMap[e.signature] < |entries|
    {
      if e.signature in signatureMap then (this.(clock := now), signatureMap[e.signature])
      else if free.Some? && free.value < |owners| then
        var i := free.value;
        (this.(signatureMap := signatureMap[e.signature := i], entries := entries[i := entries[i].(unused := false)],
               owners := owners[i := e.signature], clock := now), i)
      else
        (this.(signatureMap := signatureMap[e.signature := |entries|],
          entries := entries + [Entry(e.schema, EMPTY, now, false)],
               owners := owners + [e.signature], clock := now), |entries|)
    }

    /** An event is put into an entry with its schema. */
    predicate SchemaFits(e: Event)
      requires e.signature in signatureMap ==> signatureMap[e.signature] < |entries|
    {
      if e.signature in signatureMap then entries[signatureMap[e.signature]].schema == e.schema
      else FirstFree(entries, 0).Some? ==> entries[FirstFree(entries, 0).value].schema == e.schema
    }

    /** The pending event goes to the entry of its signature. In ordered mode the
        active entry is flushed first if that is another one. */
    function Complete(now: int, later: int, conflict: bool): State
    {
      if pending == None then this
      else if pending.value.signature in signatureMap && signatureMap[pending.value.signature] >= |entries| then this
      else
        var (st, i) := Register(pending.value, FirstFree(entries, 0), now);
        var st' := if ordered && i != active && active < |st.entries| then st.Flush(active, later) else st;
        if i < |st'.entries| then st'.Commit(i, conflict) else this
    }

    /** The pending event goes to the builder of an entry. */
    function Commit(i: nat, conflict: bool): State
      requires i < |entries| && pending.Some?
    {
      this.(entries := entries[i := entries[i].(builder := entries[i].builder.Add(pending.value, conflict))],
        active := i, pending := None)
    }

    function Add(e: Event): State
    {
      this.(pending := Some(e), input := input + [e])
    }

    function Read(now: int): State
    {
      this.(clock := now)
    }

    function Yield(): State
    {
      this.(yielded := yielded + ready, ready := [])
    }

    function Collect(s: string): State
      requires s in signatureMap && signatureMap[s] < |entries|
    {
      var i := signatureMap[s];
      this.(entries := entries[i := entries[i].(unused := true)], signatureMap := signatureMap - {s})
    }

    function RemovePending(): State
      requires pending.Some?
    {
      this.(pending := None, input := DropLastOf(input, pending.value.signature))
    }

    function RemoveBuffered(): State
      requires active < |entries| == |owners|
    {
      var b := entries[active].builder;
      if |b.open| > 0 then
        this.(entries := entries[active := entries[active].(builder := b.RemoveLast())],
          input := DropLastOf(input, owners[active]))
      else this
    }
  }

  lemma NoEvents(t: string)
    ensures EMPTY.Events() == [] && Uniform([], t) && Of([], t) == []
  {
  }

  lemma FlushIndexed(st: State, i: nat, now: int)
    requires st.Indexed() && i < |st.entries|
    ensures st.Flush(i, now).Indexed()
  {
    hide Uniform;
    var st' := st.Flush(i, now);
    NoEvents(st.owners[i]);
    forall k | 0 <= k < |st'.entries| ensures st'.Owned(k) {
      assert st.Owned(k);
    }
    forall s ensures st'.Mapped(s) {
      assert st.Mapped(s);
    }
  }

  lemma FlushKeepsStream(st: State, i: nat, now: int, s: string)
    requires st.Indexed() && i < |st.entries| && st.Stream(s)
    ensures st.Flush(i, now).Stream(s)
  {
    hide Of, Uniform;
    var t := st.owners[i];
    NoEvents(t);
    assert st.Owned(i) && st.Mapped(s) && st.Mapped(t);
    FlushStream(st.yielded, st.ready, st.Events(i), t, st.Live(s), st.Pending(), st.input, s);
  }

  lemma FlushInOrder(st: State, i: nat, now: int)
    requires st.InOrder() && i < |st.entries| && (i == st.active || st.Events(i) == [])
    ensures st.Flush(i, now).InOrder()
  {
    var st', events := st.Flush(i, now), st.Events(i);
    NoEvents("");
    Assoc(st.yielded, st.ready, events);
    Assoc(st.yielded + (st.ready + events), [], []);
    Assoc(st.ready, [], []);
    forall k | 0 <= k < |st'.entries| && k != st'.active ensures st'.Events(k) == [] {
      assert st.Events(k) == [];
    }
  }

  lemma FlushValid(st: State, i: nat, now: int)
    requires st.Valid() && i < |st.entries| && (st.ordered ==> i == st.active || st.Events(i) == [])
    ensures st.Flush(i, now).Valid()
  {
    hide State.Indexed, State.Stream, State.InOrder;
    FlushIndexed(st, i, now);
    forall s ensures st.Flush(i, now).Stream(s) {
      FlushKeepsStream(st, i, now, s);
    }
    if st.ordered {
      FlushInOrder(st, i, now);
    }
  }

  lemma UnusedEmpty(st: State, i: nat)
    requires st.Indexed() && i < |st.entries| && st.entries[i].unused
    ensures st.Events(i) == []
  {
    assert st.Owned(i) && st.Mapped(st.owners[i]);
  }

  lemma RegisterIndexed(st: State, e: Event, free: Option<nat>, now: int)
    requires st.Indexed() && (free.Some? ==> free.value < |st.entries| && st.entries[free.value].unused)
    ensures st.Mapped(e.signature)
    ensures var r := st.Register(e, free, now);
            && r.0.Indexed() && r.1 < |r.0.entries| && r.0.owners[r.1] == e.signature
            && e.signature in r.0.signatureMap && r.0.signatureMap[e.signature] == r.1
            && r.0.active < |r.0.entries|
  {
    hide Uniform;
    assert st.Mapped(e.signature);
    var (st', n) := st.Register(e, free, now);
    NoEvents(e.signature);
    if free.Some? {
      UnusedEmpty(st, free.value);
    }
    forall k | 0 <= k < |st'.entries| ensures st'.Owned(k) {
      if k < |st.entries| {
        assert st.Owned(k);
      }
    }
    forall s ensures st'.Mapped(s) {
      assert st.Mapped(s);
      if free.Some? && s in st.signatureMap {
        assert !st.entries[st.signatureMap[s]].unused;
      }
    }
  }

  lemma RegisterKeepsStream(st: State, e: Event, free: Option<nat>, now: int, s: string)
    requires st.Indexed() && (free.Some? ==> free.value < |st.entries| && st.entries[free.value].unused)
    requires st.Mapped(e.signature) && st.Stream(s)
    ensures st.Register(e, free, now).0.Stream(s)
  {
    hide Of, Uniform;
    assert st.Mapped(s);
    NoEvents(s);
    if free.Some? {
      UnusedEmpty(st, free.value);
    }
  }

  lemma RegisterInOrder(st: State, e: Event, free: Option<nat>, now: int)
    requires st.Indexed() && st.InOrder() && (free.Some? ==> free.value < |st.entries| && st.entries[free.value].unused)
    requires st.Mapped(e.signature)
    ensures st.Register(e, free, now).0.InOrder()
  {
    var (st', n) := st.Register(e, free, now);
    NoEvents("");
    forall k | 0 <= k < |st'.entries| && k != st'.active ensures st'.Events(k) == [] {
      if k < |st.entries| {
        assert st.Events(k) == [];
      }
    }
    assert st'.Buffered() == st.Buffered();
  }

  lemma RegisterValid(st: State, e: Event, free: Option<nat>, now: int)
    requires st.Valid() && (free.Some? ==> free.value < |st.entries| && st.entries[free.value].unused)
    ensures st.Mapped(e.signature)
    ensures st.Register(e, free, now).0.Valid()
  {
    hide State.Indexed, State.Stream, State.InOrder;
    RegisterIndexed(st, e, free, now);
    forall s ensures st.Register(e, free, now).0.Stream(s) {
      RegisterKeepsStream(st, e, free, now, s);
    }
    if st.ordered {
      RegisterInOrder(st, e, free, now);
    }
  }

  /** The entry is the one of the pending event's signature. */
  ghost predicate EntryOf(st: State, i: nat)
  {
    && i < |st.entries| == |st.owners| && st.pending.Some? && st.owners[i] == st.pending.value.signature
    && st.owners[i] in st.signatureMap && st.signatureMap[st.owners[i]] == i
  }

  lemma CommitIndexed(st: State, i: nat, conflict: bool)
    requires st.Indexed() && EntryOf(st, i)
    ensures st.Commit(i, conflict).Indexed()
  {
    hide Uniform;
    var st' := st.Commit(i, conflict);
    CommitEvents(st.entries[i].builder, st.pending.value, conflict);
    forall k | 0 <= k < |st'.entries| ensures st'.Owned(k) {
      assert st.Owned(k);
    }
    forall s ensures st'.Mapped(s) {
      assert st.Mapped(s);
    }
  }

  lemma CommitKeepsStream(st: State, i: nat, conflict: bool, s: string)
    requires st.Indexed() && EntryOf(st, i) && st.Stream(s)
    ensures st.Commit(i, conflict).Stream(s)
  {
    hide Of, Uniform;
    var st', e := st.Commit(i, conflict), st.pending.value;
    CommitEvents(st.entries[i].builder, e, conflict);
    assert st.Mapped(s);
    OfOne([], e, s);
    NoEvents(s);
    Assoc(Of(st.yielded + st.ready, s), st.Live(s), [e]);
    Assoc(Of(st.yielded + st.ready, s) + st'.Live(s), [], []);
  }

  lemma CommitInOrder(st: State, i: nat, conflict: bool)
    requires st.Indexed() && EntryOf(st, i) && st.InOrder() && (i == st.active || st.Buffered() == [])
    ensures st.Commit(i, conflict).InOrder()
  {
    var st', e := st.Commit(i, conflict), st.pending.value;
    CommitEvents(st.entries[i].builder, e, conflict);
    assert st.Events(i) == st.Buffered();
    forall k | 0 <= k < |st'.entries| && k != i ensures st'.Events(k) == [] {
      assert st.Events(k) == [];
    }
    Assoc(st.yielded + st.ready, st.Buffered(), [e]);
    Assoc(st.yielded + st.ready + st'.Buffered(), [], []);
  }

  lemma CommitValid(st: State, i: nat, conflict: bool)
    requires st.Valid() && EntryOf(st, i) && (st.ordered ==> i == st.active || st.Buffered() == [])
    ensures st.Commit(i, conflict).Valid()
  {
    hide State.Indexed, State.Stream, State.InOrder;
    CommitIndexed(st, i, conflict);
    forall s ensures st.Commit(i, conflict).Stream(s) {
      CommitKeepsStream(st, i, conflict, s);
    }
    if st.ordered {
      CommitInOrder(st, i, conflict);
    }
  }

  lemma CommitEvents(b: SeriesBuilder, e: Event, conflict: bool)
    ensures b.Add(e, conflict).Events() == b.Events() + [e]
    ensures Uniform(b.Events(), e.signature) ==> Uniform(b.Events() + [e], e.signature)
  {
    Assoc(b.finished, b.open, [e]);
  }

  lemma NothingPending(st: State, now: int, later: int, conflict: bool)
    requires st.pending == None
    ensures st == st.Complete(now, later, conflict)
  {
  }

  /** The three parts of completing an event. */
  lemma CompletedParts(st: State, now: int, later: int, conflict: bool)
    requires st.Indexed() && st.pending.Some?
    ensures st.Mapped(st.pending.value.signature)
    ensures var r := st.Register(st.pending.value, FirstFree(st.entries, 0), now);
            var st' := if st.ordered && r.1 != st.active && st.active < |r.0.entries| then r.0.Flush(st.active, later)
              else r.0;
            r.1 < |st'.entries| && st'.pending.Some? && st.Complete(now, later, conflict) == st'.Commit(r.1, conflict)
  {
    hide State.Commit, Uniform;
    RegisterIndexed(st, st.pending.value, FirstFree(st.entries, 0), now);
  }

  lemma CompleteValid(st: State, now: int, later: int, conflict: bool)
    requires st.Valid()
    ensures st.Complete(now, later, conflict).Valid() && st.Complete(now, later, conflict).pending == None
  {
    hide State.Valid;
    IndexedOf(st);
    if st.pending.Some? {
      var e, free := st.pending.value, FirstFree(st.entries, 0);
      RegisterValid(st, e, free, now);
      RegisterIndexed(st, e, free, now);
      var (st1, i) := st.Register(e, free, now);
      OnlyActive(st1, i);
      if st.ordered && i != st.active {
        NoEvents("");
        FlushValid(st1, st.active, later);
        CommitValid(st1.Flush(st.active, later), i, conflict);
      } else {
        CommitValid(st1, i, conflict);
      }
    }
  }

  lemma AddValid(st: State, e: Event)
    requires st.Valid() && st.pending == None
    ensures st.Add(e).Valid()
  {
    hide Of, Uniform;
    var st' := st.Add(e);
    forall s ensures st'.Mapped(s) { assert st.Mapped(s); }
    forall k | 0 <= k < |st'.entries| ensures st'.Owned(k) { assert st.Owned(k); }
    forall s ensures st'.Stream(s) {
      assert st.Stream(s);
      NoEvents(s);
      OfOne([], e, s);
      OfOne(st.input, e, s);
      Assoc(Of(st.yielded + st.ready, s) + st.Live(s), [], []);
      Assoc(Of([], s), Of([e], s), []);
    }
    Assoc(st.yielded + st.ready + st.Buffered(), [], []);
    forall k | 0 <= k < |st'.entries| && k != st'.active ensures st.ordered ==> st'.Events(k) == [] {
      assert st.ordered ==> st.Events(k) == [];
    }
  }

  lemma YieldValid(st: State)
    requires st.Valid()
    ensures st.Yield().Valid()
  {
    hide Of, Uniform;
    var st' := st.Yield();
    Assoc(st.yielded + st.ready, [], []);
    forall s ensures st'.Mapped(s) { assert st.Mapped(s); }
    forall k | 0 <= k < |st'.entries| ensures st'.Owned(k) { assert st.Owned(k); }
    forall s ensures st'.Stream(s) { assert st.Stream(s); }
    forall k | 0 <= k < |st'.entries| && k != st'.active ensures st.ordered ==> st'.Events(k) == [] {
      assert st.ordered ==> st.Events(k) == [];
    }
  }

  lemma ReadValid(st: State, now: int)
    requires st.Valid()
    ensures st.Read(now).Valid()
  {
    hide Of, Uniform;
    var st' := st.Read(now);
    forall s ensures st'.Mapped(s) { assert st.Mapped(s); }
    forall k | 0 <= k < |st'.entries| ensures st'.Owned(k) { assert st.Owned(k); }
    forall s ensures st'.Stream(s) { assert st.Stream(s); }
    forall k | 0 <= k < |st'.entries| && k != st'.active ensures st.ordered ==> st'.Events(k) == [] {
      assert st.ordered ==> st.Events(k) == [];
    }
  }

  lemma CollectValid(st: State, t: string)
    requires st.Valid() && t in st.signatureMap && st.signatureMap[t] < |st.entries|
        && st.Events(st.signatureMap[t]) == []
    ensures st.Collect(t).Valid()
  {
    hide Of, Uniform;
    var st' := st.Collect(t);
    forall s ensures st'.Mapped(s) {
      assert st.Mapped(s) && st.Mapped(t);
    }
    forall k | 0 <= k < |st'.entries| ensures st'.Owned(k) {
      assert st.Owned(k) && st.Mapped(t);
    }
    forall s ensures st'.Stream(s) {
      assert st.Stream(s) && st.Mapped(s);
    }
    forall k | 0 <= k < |st'.entries| && k != st'.active ensures st.ordered ==> st'.Events(k) == [] {
      assert st.ordered ==> st.Events(k) == [];
    }
  }

  /** With the last event at the end, dropping the last one of its signature drops
      the last one. */
  lemma DropLast(es: seq<Event>, e: Event)
    ensures DropLastOf(es + [e], e.signature) == es
  {
    assert (es + [e])[..|es|] == es;
  }

  lemma RemovePendingStream(st: State, s: string)
    requires st.pending.Some? && st.Stream(s)
    ensures st.RemovePending().Stream(s)
  {
    hide Of, DropLastOf;
    var e, rest := st.pending.value, Of(st.yielded + st.ready, s) + st.Live(s);
    OfOne([], e, s);
    NoEvents(s);
    OfDropLast(st.input, e.signature, s);
    Assoc(rest, [], []);
    if s == e.signature {
      assert (rest + [e])[..|rest|] == rest;
    }
  }

  lemma RemovePendingValid(st: State)
    requires st.Valid() && st.pending.Some?
    ensures st.RemovePending().Valid()
  {
    hide Of, Uniform, DropLastOf, State.Stream;
    var st' := st.RemovePending();
    forall s ensures st'.Mapped(s) { assert st.Mapped(s); }
    forall k | 0 <= k < |st'.entries| ensures st'.Owned(k) { assert st.Owned(k); }
    forall s ensures st'.Stream(s) { RemovePendingStream(st, s); }
    if st.ordered {
      DropLast(st.yielded + st.ready + st.Buffered(), st.pending.value);
      Assoc(st.yielded + st.ready + st.Buffered(), [], []);
      forall k | 0 <= k < |st'.entries| && k != st'.active ensures st'.Events(k) == [] {
        assert st.Events(k) == [];
      }
    }
  }

  lemma RemovedLast(b: SeriesBuilder)
    requires |b.open| > 0
    ensures b.Events() == b.RemoveLast().Events() + [b.open[|b.open| - 1]]
  {
  }

  lemma UniformInit(es: seq<Event>, e: Event, t: string)
    requires Uniform(es + [e], t)
    ensures Uniform(es, t) && e.signature == t
  {
    assert forall k :: 0 <= k < |es| ==> (es + [e])[k] == es[k];
    assert (es + [e])[|es|] == e;
  }

  lemma RemoveBufferedStream(st: State, s: string)
    requires st.Indexed() && st.active < |st.entries| && st.pending == None && st.Stream(s)
    ensures st.RemoveBuffered().Stream(s)
  {
    hide Of, DropLastOf, Uniform;
    var st', b, t := st.RemoveBuffered(), st.entries[st.active].builder, st.owners[st.active];
    assert st.Mapped(s) && st.Owned(st.active);
    if |b.open| > 0 {
      var rest, e := b.RemoveLast().Events(), b.open[|b.open| - 1];
      RemovedLast(b);
      NoEvents(s);
      OfDropLast(st.input, t, s);
      var gone := Of(st.yielded + st.ready, s);
      Assoc(gone + st.Live(s), [], []);
      Assoc(gone + st'.Live(s), [], []);
      if s == t {
        Assoc(gone, rest, [e]);
        assert ((gone + rest) + [e])[..|gone + rest|] == gone + rest;
      }
    }
  }

  lemma RemoveBufferedValid(st: State)
    requires st.Valid() && st.active < |st.entries| && st.pending == None
    ensures st.RemoveBuffered().Valid()
  {
    hide Of, Uniform, DropLastOf, State.Stream;
    var st', b := st.RemoveBuffered(), st.entries[st.active].builder;
    forall s ensures st'.Stream(s) { RemoveBufferedStream(st, s); }
    assert st.Owned(st.active);
    if |b.open| > 0 {
      var rest, e := b.RemoveLast().Events(), b.open[|b.open| - 1];
      RemovedLast(b);
      UniformInit(rest, e, st.owners[st.active]);
      forall s ensures st'.Mapped(s) { assert st.Mapped(s); }
      forall k | 0 <= k < |st'.entries| ensures st'.Owned(k) { assert st.Owned(k); }
      if st.ordered {
        var front := st.yielded + st.ready;
        Assoc(front, rest, [e]);
        DropLast(front + rest, e);
        Assoc(front + st.Buffered(), [], []);
        Assoc(front + rest, [], []);
        forall k | 0 <= k < |st'.entries| && k != st'.active ensures st'.Events(k) == [] {
          assert st.Events(k) == [];
        }
      }
    }
  }

  /** Two signatures never share an entry, a free entry has no events, and in ordered
      mode at most one entry has any. */
  lemma SeparateBuilders(st: State)
    requires st.Valid()
    ensures forall s, t :: s in st.signatureMap && t in st.signatureMap && st.signatureMap[s] == st.signatureMap[t] ==>
        s == t
    ensures forall i :: 0 <= i < |st.entries| && st.entries[i].unused ==> st.Events(i) == []
    ensures st.ordered ==>
              forall i, j ::
                0 <= i < |st.entries| && 0 <= j < |st.entries| && st.Events(i) != [] && st.Events(j) != [] ==> i == j
  {
    hide Of, Uniform;
    forall s, t | s in st.signatureMap && t in st.signatureMap && st.signatureMap[s] == st.signatureMap[t]
      ensures s == t
    {
      assert st.Mapped(s) && st.Mapped(t);
    }
    forall i | 0 <= i < |st.entries| && st.entries[i].unused
      ensures st.Events(i) == []
    {
      UnusedEmpty(st, i);
    }
  }

  // ----- Runs

  datatype Action =
    | Arrive(e: Event)
    | Completed(now: int, later: int, conflict: bool)
    | ClockRead(now: int)
    | Flushed(i: nat, now: int)
    | Collected(s: string, now: int)
    | Taken
    | PendingRemoved
    | LastRemoved

  predicate Collectible(st: State, s: string, now: int)
  {
    && now <= st.clock && FlushedSince(st, now)
    && s in st.signatureMap && st.signatureMap[s] < |st.entries| && st.Events(st.signatureMap[s]) == []
    && Stale(now - st.entries[st.signatureMap[s]].flushed, st.timeout)
  }

  /** All entries that had timed out at a reading of the clock were flushed after it. */
  predicate FlushedSince(st: State, now: int)
  {
    forall i :: 0 <= i < |st.entries| ==>
      st.entries[i].flushed >= now || !TimedOut(now - st.entries[i].flushed, st.timeout)
  }

  /** The clock does not go back. A signature is collected only after the flush of the
      same round, with the same reading of the clock. */
  ghost predicate Enabled(st: State, a: Action)
  {
    match a
    case Arrive(_) => st.pending == None
    case Completed(now, later, _) => st.clock <= now <= later
    case ClockRead(now) => st.clock <= now
    case Flushed(i, now) => st.clock <= now && i < |st.entries| && (st.ordered ==> i == st.active || st.Events(i) == [])
    case Collected(s, now) => Collectible(st, s, now)
    case Taken => true
    case PendingRemoved => st.pending.Some?
    case LastRemoved => st.pending == None && st.active < |st.entries| == |st.owners|
  }

  ghost function Next(st: State, a: Action): State
    requires Enabled(st, a)
  {
    match a
    case Arrive(e) => st.Add(e)
    case Completed(now, later, conflict) => st.Complete(now, later, conflict)
    case ClockRead(now) => st.Read(now)
    case Flushed(i, now) => st.Flush(i, now)
    case Collected(s, _) => st.Collect(s)
    case Taken => st.Yield()
    case PendingRemoved => st.RemovePending()
    case LastRemoved => st.RemoveBuffered()
  }

  lemma NextValid(st: State, a: Action)
    requires st.Valid() && Enabled(st, a)
    ensures Next(st, a).Valid()
  {
    hide State.Valid, State.Complete, State.Add, State.Flush, State.Collect, State.Yield, State.RemovePending,
      State.RemoveBuffered;
    hide State.Read, FlushedSince;
    match a
    case Arrive(e) => AddValid(st, e);
    case Completed(now, later, conflict) => CompleteValid(st, now, later, conflict);
    case ClockRead(now) => ReadValid(st, now);
    case Flushed(i, now) => FlushValid(st, i, now);
    case Collected(s, _) => CollectValid(st, s);
    case Taken => YieldValid(st);
    case PendingRemoved => RemovePendingValid(st);
    case LastRemoved => RemoveBufferedValid(st);
  }

  datatype Run = Start(ordered: bool, timeout: int, clock: int) | Then(before: Run, action: Action)

  ghost predicate Possible(r: Run)
  {
    r.Then? ==> Possible(r.before) && Enabled(After(r.before), r.action)
  }

  ghost function After(r: Run): State
  {
    match r
    case Start(ordered, timeout, clock) => State(ordered, timeout, clock, map[], [], [], None, 0, [], [], [])
    case Then(before, a) => if Enabled(After(before), a) then Next(After(before), a) else After(before)
  }

  function TimeoutOf(r: Run): int
  {
    match r
    case Start(_, timeout, _) => timeout
    case Then(before, _) => TimeoutOf(before)
  }

  lemma OneMoreStep(r: Run, a: Action)
    requires Possible(r) && Enabled(After(r), a)
    ensures Possible(Then(r, a)) && After(Then(r, a)) == Next(After(r), a) && TimeoutOf(Then(r, a)) == TimeoutOf(r)
  {
    hide Enabled, Next;
  }

  /** All results about valid states hold after every run. */
  lemma {:induction false} RunValid(r: Run)
    requires Possible(r)
    ensures After(r).Valid()
  {
    hide State.Valid, Next, Enabled;
    match r
    case Start(ordered, timeout, clock) => StartValid(ordered, timeout, clock);
    case Then(before, a) =>
      RunValid(before);
      NextValid(After(before), a);
  }

  lemma StartValid(ordered: bool, timeout: int, clock: int)
    ensures After(Start(ordered, timeout, clock)).Valid()
  {
  }

  // ----- Schemas

  /** The schema of an event depends on its signature only. */
  predicate Named(es: seq<Event>, schemaOf: string -> string)
  {
    forall k :: 0 <= k < |es| ==> es[k].schema == schemaOf(es[k].signature)
  }

  ghost predicate AllNamed(r: Run, schemaOf: string -> string)
  {
    r.Then? ==> AllNamed(r.before, schemaOf) && (r.action.Arrive? ==> Named([r.action.e], schemaOf))
  }

  /** All events of an entry have its schema. */
  predicate Placed(st: State, i: nat)
    requires i < |st.entries|
  {
    forall k :: 0 <= k < |st.Events(i)| ==> st.Events(i)[k].schema == st.entries[i].schema
  }

  ghost predicate AlwaysPlaced(r: Run)
  {
    && (forall i :: 0 <= i < |After(r).entries| ==> Placed(After(r), i))
    && (r.Then? ==> AlwaysPlaced(r.before))
  }

  /** If a free entry is used again for a new signature, it was made for the schema of
      that signature. */
  ghost predicate ReuseFits(st: State)
  {
    st.pending.Some? && st.pending.value.signature !in st.signatureMap && FirstFree(st.entries, 0).Some? ==>
      st.entries[FirstFree(st.entries, 0).value].schema == st.pending.value.schema
  }

  ghost predicate AlwaysFits(r: Run)
  {
    r.Then? ==> AlwaysFits(r.before) && (r.action.Completed? ==> ReuseFits(After(r.before)))
  }

  predicate SoundEntry(st: State, i: nat, schemaOf: string -> string)
    requires i < |st.entries|
  {
    Named(st.Events(i), schemaOf)
  }

  predicate SoundSignature(st: State, s: string, schemaOf: string -> string)
  {
    s in st.signatureMap && st.signatureMap[s] < |st.entries| ==> st.entries[st.signatureMap[s]].schema == schemaOf(s)
  }

  /** All events have the schema of their signature, and so have the entries of all
      mapped signatures. */
  ghost predicate Sound(st: State, schemaOf: string -> string)
  {
    && Named(st.Pending(), schemaOf)
    && (forall i :: 0 <= i < |st.entries| ==> SoundEntry(st, i, schemaOf))
    && (forall s :: SoundSignature(st, s, schemaOf))
  }

  /** Entries and signatures stay sound where a step changes nothing that matters. */
  lemma StaysSound(st: State, st': State, schemaOf: string -> string)
    requires Sound(st, schemaOf) && Named(st'.Pending(), schemaOf) && |st'.entries| == |st.entries|
    requires forall s :: s in st'.signatureMap ==> s in st.signatureMap && st'.signatureMap[s] == st.signatureMap[s]
    requires forall i :: 0 <= i < |st.entries| ==> st'.entries[i].schema == st.entries[i].schema
    requires forall i :: 0 <= i < |st.entries| ==> st'.Events(i) <= st.Events(i)
    ensures Sound(st', schemaOf)
  {
    forall s ensures SoundSignature(st', s, schemaOf) {
      assert SoundSignature(st, s, schemaOf);
    }
    forall i | 0 <= i < |st'.entries| ensures SoundEntry(st', i, schemaOf) {
      assert SoundEntry(st, i, schemaOf) && st'.Events(i) <= st.Events(i);
    }
  }

  lemma RegisteredSound(st: State, e: Event, now: int, schemaOf: string -> string)
    requires st.Indexed() && Sound(st, schemaOf) && ReuseFits(st) && st.pending == Some(e)
    requires e.signature in st.signatureMap ==> st.signatureMap[e.signature] < |st.entries|
    ensures Sound(st.Register(e, FirstFree(st.entries, 0), now).0, schemaOf)
  {
    hide Uniform;
    var (st', n) := st.Register(e, FirstFree(st.entries, 0), now);
    assert st.Pending()[0] == e && st'.Pending() == st.Pending();
    NoEvents(e.signature);
    forall k | 0 <= k < |st'.entries| ensures SoundEntry(st', k, schemaOf) {
      if k < |st.entries| {
        assert SoundEntry(st, k, schemaOf) && st'.Events(k) == st.Events(k);
      }
    }
    forall s ensures SoundSignature(st', s, schemaOf) {
      assert SoundSignature(st, s, schemaOf) && st.Mapped(s);
    }
  }

  lemma CommittedSound(st: State, i: nat, conflict: bool, schemaOf: string -> string)
    requires i < |st.entries| && st.pending.Some? && Sound(st, schemaOf)
    ensures Sound(st.Commit(i, conflict), schemaOf)
  {
    var st', e := st.Commit(i, conflict), st.pending.value;
    CommitEvents(st.entries[i].builder, e, conflict);
    assert st.Pending()[0] == e;
    forall k | 0 <= k < |st'.entries| ensures SoundEntry(st', k, schemaOf) {
      assert SoundEntry(st, k, schemaOf);
    }
    forall s ensures SoundSignature(st', s, schemaOf) {
      assert SoundSignature(st, s, schemaOf);
    }
  }

  lemma CompletedSound(st: State, now: int, later: int, conflict: bool, schemaOf: string -> string)
    requires st.Valid() && Sound(st, schemaOf) && ReuseFits(st)
    ensures Sound(st.Complete(now, later, conflict), schemaOf)
  {
    hide Uniform, State.Stream, State.InOrder, Sound, ReuseFits;
    if st.pending.Some? {
      var e, free := st.pending.value, FirstFree(st.entries, 0);
      RegisterIndexed(st, e, free, now);
      RegisteredSound(st, e, now, schemaOf);
      var (st1, i) := st.Register(e, free, now);
      if st.ordered && i != st.active {
        FlushedSound(st1, st.active, later, schemaOf);
        CommittedSound(st1.Flush(st.active, later), i, conflict, schemaOf);
      } else {
        CommittedSound(st1, i, conflict, schemaOf);
      }
    }
  }

  lemma FlushedSound(st: State, i: nat, now: int, schemaOf: string -> string)
    requires i < |st.entries| && Sound(st, schemaOf)
    ensures Sound(st.Flush(i, now), schemaOf)
  {
    NoEvents("");
    StaysSound(st, st.Flush(i, now), schemaOf);
  }

  lemma NextSound(st: State, a: Action, schemaOf: string -> string)
    requires st.Valid() && Enabled(st, a) && Sound(st, schemaOf)
    requires a.Completed? ==> ReuseFits(st)
    requires a.Arrive? ==> Named([a.e], schemaOf)
    ensures Sound(Next(st, a), schemaOf)
  {
    hide Uniform, State.Stream, State.InOrder, State.Complete, DropLastOf;
    match a
    case Completed(now, later, conflict) => CompletedSound(st, now, later, conflict, schemaOf);
    case Flushed(i, now) => FlushedSound(st, i, now, schemaOf);
    case LastRemoved =>
      var b := st.entries[st.active].builder;
      if |b.open| > 0 {
        RemovedLast(b);
      }
      StaysSound(st, Next(st, a), schemaOf);
    case _ => StaysSound(st, Next(st, a), schemaOf);
  }

  lemma SoundPlaced(st: State, schemaOf: string -> string)
    requires st.Valid() && Sound(st, schemaOf)
    ensures forall i :: 0 <= i < |st.entries| ==> Placed(st, i)
  {
    forall i | 0 <= i < |st.entries| ensures Placed(st, i) {
      assert st.Owned(i) && SoundEntry(st, i, schemaOf) && SoundSignature(st, st.owners[i], schemaOf);
    }
  }

  /** An entry that is used again for another schema keeps its own. */
  lemma CompletedMisplaced(st: State, now: int, later: int, conflict: bool)
    requires st.Valid() && !ReuseFits(st)
    ensures var st', free := st.Complete(now, later, conflict), FirstFree(st.entries, 0);
            free.Some? && free.value < |st'.entries| && !Placed(st', free.value)
  {
    hide Uniform, State.Stream, State.InOrder;
    var e, free := st.pending.value, FirstFree(st.entries, 0);
    RegisterIndexed(st, e, free, now);
    var (st1, i) := st.Register(e, free, now);
    var st2 := if st.ordered && i != st.active then st1.Flush(st.active, later) else st1;
    CommitEvents(st2.entries[i].builder, e, conflict);
    var es := st.Complete(now, later, conflict).Events(i);
    assert es[|es| - 1] == e;
  }

  lemma {:induction false} FittingSound(r: Run, schemaOf: string -> string)
    requires Possible(r) && AllNamed(r, schemaOf) && AlwaysFits(r)
    ensures Sound(After(r), schemaOf)
  {
    hide State.Valid, Next, Enabled;
    if r.Then? {
      FittingSound(r.before, schemaOf);
      RunValid(r.before);
      NextSound(After(r.before), r.action, schemaOf);
    }
  }

  /** Throughout a run, every event in an entry has the schema of the entry if and only
      if every free entry that was used again was made for the schema of the new
      signature. */
  lemma {:induction false} SchemasPlaced(r: Run, schemaOf: string -> string)
    requires Possible(r) && AllNamed(r, schemaOf)
    ensures AlwaysPlaced(r) <==> AlwaysFits(r)
  {
    hide State.Valid, State.Complete, Sound, ReuseFits, Placed;
    RunValid(r);
    if r.Then? {
      SchemasPlaced(r.before, schemaOf);
      RunValid(r.before);
      if r.action.Completed? && !ReuseFits(After(r.before)) {
        CompletedMisplaced(After(r.before), r.action.now, r.action.later, r.action.conflict);
        assert !Placed(After(r), FirstFree(After(r.before).entries, 0).value);
      }
    }
    if AlwaysFits(r) {
      FittingSound(r, schemaOf);
      SoundPlaced(After(r), schemaOf);
    }
  }

  // ----- Time

  predicate Timed(st: State)
  {
    forall i :: 0 <= i < |st.entries| ==> st.entries[i].flushed <= st.clock
  }

  predicate AllUsed(st: State)
  {
    forall i :: 0 <= i < |st.entries| ==> !st.entries[i].unused
  }

  /** All signatures keep their entries. */
  predicate Keeps(st: State, st': State)
  {
    && |st.entries| <= |st'.entries|
    && forall s :: s in st.signatureMap ==> s in st'.signatureMap && st'.signatureMap[s] == st.signatureMap[s]
  }

  lemma CompletedKeeps(st: State, now: int, later: int, conflict: bool)
    requires st.Indexed() && st.clock <= now <= later
    ensures var st' := st.Complete(now, later, conflict);
            && st'.timeout == st.timeout && st'.clock >= st.clock
            && (Timed(st) ==> Timed(st'))
            && (AllUsed(st) ==> AllUsed(st') && Keeps(st, st'))
  {
    hide State.Complete, State.Indexed;
    if st.pending.Some? {
      CompletedParts(st, now, later, conflict);
    } else {
      NothingPending(st, now, later, conflict);
    }
  }

  lemma NextTimed(st: State, a: Action)
    requires st.Valid() && Enabled(st, a)
    ensures Next(st, a).timeout == st.timeout && Next(st, a).clock >= st.clock
    ensures Timed(st) ==> Timed(Next(st, a))
  {
    hide State.Valid, State.Indexed, State.Complete, FlushedSince, DropLastOf;
    IndexedOf(st);
    if a.Completed? {
      CompletedKeeps(st, a.now, a.later, a.conflict);
    }
  }

  lemma {:induction false} RunTimed(r: Run)
    requires Possible(r)
    ensures Timed(After(r)) && After(r).timeout == TimeoutOf(r)
  {
    hide State.Valid, Next, Enabled;
    if r.Then? {
      RunTimed(r.before);
      RunValid(r.before);
      NextTimed(After(r.before), r.action);
    }
  }

  // ----- With a positive timeout

  /** What was flushed in a round is not stale in that round, and what did not have to
      be flushed is not stale either. */
  lemma NothingStale(st: State, now: int)
    requires FlushedSince(st, now) && st.timeout > 0
    ensures StaleSignatures(st, now, st.timeout) == {}
  {
    forall s | s in st.signatureMap && st.signatureMap[s] < |st.entries|
      ensures !Stale(now - st.entries[st.signatureMap[s]].flushed, st.timeout)
    {
      var i := st.signatureMap[s];
      assert st.entries[i].flushed >= now || !TimedOut(now - st.entries[i].flushed, st.timeout);
    }
  }

  lemma NextAllUsed(st: State, a: Action)
    requires st.Valid() && Enabled(st, a) && st.timeout > 0 && AllUsed(st)
    ensures AllUsed(Next(st, a)) && Keeps(st, Next(st, a))
  {
    hide State.Valid, State.Indexed, State.Complete, FlushedSince, DropLastOf, StaleSignatures;
    IndexedOf(st);
    match a
    case Completed(now, later, conflict) => CompletedKeeps(st, now, later, conflict);
    case Collected(s, now) =>
      NothingStale(st, now);
      IsStale(st, s, now);
      assert false;
    case _ =>
  }

  lemma IsStale(st: State, s: string, now: int)
    requires Collectible(st, s, now)
    ensures s in StaleSignatures(st, now, st.timeout)
  {
  }

  /** With a positive timeout, no entry ever becomes free. */
  lemma {:induction false} NeverFreed(r: Run)
    requires Possible(r) && TimeoutOf(r) > 0
    ensures AllUsed(After(r))
  {
    hide State.Valid, Next, Enabled;
    if r.Then? {
      NeverFreed(r.before);
      RunTimed(r.before);
      RunValid(r.before);
      NextAllUsed(After(r.before), r.action);
    }
  }

  lemma KnownState(r: Run)
    requires Possible(r)
    ensures Timed(After(r)) && (After(r).timeout > 0 ==> AllUsed(After(r)))
  {
    RunTimed(r);
    if TimeoutOf(r) > 0 {
      NeverFreed(r);
    }
  }

  predicate Extends(r: Run, first: Run)
  {
    r == first || (r.Then? && Extends(r.before, first))
  }

  /** So a signature that has an entry keeps it, however long it is idle. */
  lemma {:induction false} SignaturesStay(r: Run, first: Run)
    requires Possible(r) && Extends(r, first) && TimeoutOf(r) > 0
    ensures Keeps(After(first), After(r))
  {
    hide State.Valid, Next, Enabled;
    if r != first {
      SignaturesStay(r.before, first);
      NeverFreed(r.before);
      RunTimed(r.before);
      RunValid(r.before);
      NextAllUsed(After(r.before), r.action);
    }
  }

  lemma {:induction false} PositiveFits(r: Run)
    requires Possible(r) && TimeoutOf(r) > 0
    ensures AlwaysFits(r)
  {
    hide Next, Enabled;
    if r.Then? {
      PositiveFits(r.before);
      NeverFreed(r.before);
    }
  }

  // ----- Collecting stale signatures

  function StaleSignatures(st: State, now: int, timeout: int): set<string>
  {
    set s | s in st.signatureMap && st.signatureMap[s] < |st.entries|
      && Stale(now - st.entries[st.signatureMap[s]].flushed, timeout)
  }

  /** A list of all signatures of a map, in the order of its iterator. */
  ghost predicate Lists(order: seq<string>, signatures: set<string>)
  {
    && (forall j, k :: 0 <= j < k < |order| ==> order[j] != order[k])
    && (forall s :: s in order <==> s in signatures)
  }

  /** What the loop frees from a signature on: the iterator moves on twice when it
      frees one. */
  function Freed(order: seq<string>, k: nat, stale: set<string>): set<string>
    requires k <= |order|
    decreases |order| - k
  {
    if k == |order| then {}
    else if order[k] in stale then {order[k]} + Freed(order, if k + 1 < |order| then k + 2 else k + 1, stale)
    else Freed(order, k + 1, stale)
  }

  function StaleFrom(order: seq<string>, k: nat, stale: set<string>): set<string>
    requires k <= |order|
    decreases |order| - k
  {
    if k == |order| then {} else (if order[k] in stale then {order[k]} else {}) + StaleFrom(order, k + 1, stale)
  }

  lemma {:induction false} StaleFromAll(order: seq<string>, k: nat, stale: set<string>)
    requires k <= |order|
    ensures forall s :: s in StaleFrom(order, k, stale) <==> s in stale && exists j :: k <= j < |order| && order[j] == s
    decreases |order| - k
  {
    if k < |order| {
      StaleFromAll(order, k + 1, stale);
      forall s ensures s in StaleFrom(order, k, stale)
        <==> s in stale && exists j :: k <= j < |order| && order[j] == s {
        if s in stale && exists j :: k <= j < |order| && order[j] == s {
          var j :| k <= j < |order| && order[j] == s;
          assert j == k || k + 1 <= j;
        }
      }
    }
  }

  /** No two neighbours are stale. */
  predicate Isolated(order: seq<string>, k: nat, stale: set<string>)
  {
    forall j :: k <= j < |order| - 1 ==> !(order[j] in stale && order[j + 1] in stale)
  }

  lemma {:induction false} FreedFrom(order: seq<string>, k: nat, stale: set<string>)
    requires k <= |order| && forall i, j :: 0 <= i < j < |order| ==> order[i] != order[j]
    ensures Freed(order, k, stale) <= StaleFrom(order, k, stale)
    ensures |StaleFrom(order, k, stale)| <= 2 * |Freed(order, k, stale)|
    ensures Freed(order, k, stale) == StaleFrom(order, k, stale) <==> Isolated(order, k, stale)
    decreases |order| - k
  {
    hide Isolated;
    if k < |order| {
      IsolatedStep(order, k, stale);
      if order[k] !in stale {
        FreedFrom(order, k + 1, stale);
      } else if k + 1 < |order| {
        FreedFrom(order, k + 2, stale);
        StaleFromAll(order, k + 2, stale);
      }
    } else {
      assert Isolated(order, k, stale) by { NoneIsolated(order, k, stale); }
    }
  }

  lemma NoneIsolated(order: seq<string>, k: nat, stale: set<string>)
    requires k + 1 >= |order|
    ensures Isolated(order, k, stale)
  {
  }

  lemma IsolatedStep(order: seq<string>, k: nat, stale: set<string>)
    requires k < |order|
    ensures k + 1 == |order| ==> Isolated(order, k, stale) && Isolated(order, k + 1, stale)
    ensures order[k] !in stale ==> (Isolated(order, k, stale) <==> Isolated(order, k + 1, stale))
    ensures k + 1 < |order| && order[k] in stale ==>
              (Isolated(order, k, stale) <==> order[k + 1] !in stale && Isolated(order, k + 2, stale))
  {
    if Isolated(order, k, stale) && k + 1 < |order| {
      assert !(order[k] in stale && order[k + 1] in stale);
    }
  }

  /** The loop frees at least half of a set of stale signatures, and all of them if and
      only if no two are neighbours in the order of the map. */
  lemma FreedHalf(order: seq<string>, signatures: set<string>, stale: set<string>)
    requires Lists(order, signatures) && stale <= signatures
    ensures Freed(order, 0, stale) <= stale && |stale| <= 2 * |Freed(order, 0, stale)|
    ensures Freed(order, 0, stale) == stale <==> Isolated(order, 0, stale)
  {
    FreedFrom(order, 0, stale);
    StaleFromAll(order, 0, stale);
    assert StaleFrom(order, 0, stale) == stale;
  }

  /** The entry of a freed signature becomes free, all others stay. */
  function Released(st: State, gone: set<string>, i: nat): (entry: Entry)
    requires i < |st.entries| == |st.owners|
    ensures entry.(unused := st.entries[i].unused) == st.entries[i]
  {
    var s := st.owners[i];
    if s in gone && s in st.signatureMap && st.signatureMap[s] == i then st.entries[i].(unused := true)
      else st.entries[i]
  }

  lemma ReleasedOne(st: State, gone: set<string>, s: string)
    requires st.Indexed() && s in st.signatureMap
    ensures forall i :: 0 <= i < |st.entries| ==>
              Released(st, gone + {s}, i) == if i == st.signatureMap[s] then st.entries[i].(unused := true)
                else Released(st, gone, i)
  {
    assert st.Mapped(s);
  }

  lemma NoneFreed(st: State, order: seq<string>, stale: set<string>)
    requires |st.entries| == |st.owners|
    ensures Freed(order, |order|, stale) == {}
    ensures forall i :: 0 <= i < |st.entries| ==> Released(st, {}, i) == st.entries[i]
  {
  }

  /** Which entries a round flushes. */
  function Due(now: int, timeout: int, batchSize: nat): Entry -> bool
  {
    (e: Entry) => |e.builder.Events()| >= batchSize || TimedOut(now - e.flushed, timeout)
  }

  /** What becomes available from the first entries. */
  function Available(entries: seq<Entry>, due: Entry -> bool, n: nat): seq<Event>
    requires n <= |entries|
  {
    if n == 0 then []
    else Available(entries, due, n - 1) + if due(entries[n - 1]) then entries[n - 1].builder.Events() else []
  }

  predicate EntryFlushed(st: State, due: Entry -> bool, st': State, i: nat)
    requires i < |st.entries| == |st'.entries|
  {
    if due(st.entries[i]) then
      && st'.entries[i] == st.entries[i].(builder := EMPTY, flushed := st'.entries[i].flushed)
      && st.clock <= st'.entries[i].flushed <= st'.clock
    else st'.entries[i] == st.entries[i]
  }

  /** Exactly the entries that satisfy a condition were flushed, in their order, all
      others are as they were. */
  predicate FlushedWhere(st: State, due: Entry -> bool, st': State)
  {
    && |st'.entries| == |st.entries|
    && (forall i :: 0 <= i < |st.entries| ==> EntryFlushed(st, due, st', i))
    && st' == st.(entries := st'.entries, clock := st'.clock,
       ready := st.ready + Available(st.entries, due, |st.entries|))
    && st.clock <= st'.clock
  }

  /** What was flushed before stays so when the next entry is flushed, or not. */
  lemma StillFlushed(st: State, due: Entry -> bool, last: State, st': State, i: nat)
    requires |st.entries| == |last.entries| == |st'.entries| && i < |st.entries| && st.clock <= last.clock <= st'.clock
    requires last.entries[i] == st.entries[i]
    requires st'.entries == last.entries[i := st'.entries[i]]
    requires if due(st.entries[i]) then st'.entries[i] == st.entries[i].(builder := EMPTY, flushed := st'.clock)
        else st'.entries[i] == st.entries[i]
    requires forall k :: 0 <= k < i ==> EntryFlushed(st, due, last, k)
    ensures forall k :: 0 <= k < i + 1 ==> EntryFlushed(st, due, st', k)
  {
    forall k | 0 <= k < i + 1 ensures EntryFlushed(st, due, st', k) {
      if k < i {
        assert EntryFlushed(st, due, last, k);
      }
    }
  }

  lemma AllFlushed(st: State, due: Entry -> bool, st': State)
    requires FlushedWhere(st, due, st') && forall e :: due(e)
    ensures forall i :: 0 <= i < |st'.entries| ==> st'.entries[i].builder == EMPTY
  {
    forall i | 0 <= i < |st'.entries| ensures st'.entries[i].builder == EMPTY {
      assert EntryFlushed(st, due, st', i);
    }
  }

  lemma DueFlushed(st: State, now: int, batchSize: nat, st': State)
    requires FlushedWhere(st, Due(now, st.timeout, batchSize), st') && now <= st.clock
    ensures FlushedSince(st', now)
  {
    forall i | 0 <= i < |st'.entries|
      ensures st'.entries[i].flushed >= now || !TimedOut(now - st'.entries[i].flushed, st'.timeout)
    {
      assert EntryFlushed(st, Due(now, st.timeout, batchSize), st', i);
    }
  }

  /** The pending event gets a new entry. */
  predicate GetsNewEntry(st: State)
  {
    st.pending.Some? && st.pending.value.signature !in st.signatureMap && FirstFree(st.entries, 0) == None
  }

  /** The pending event gets a new entry, which is made so late that it has not timed
      out, and is nevertheless stale. With a timeout that is not negative there is no
      such time. */
  predicate Late(st: State, s: string, delay: int, batchSize: nat)
  {
    GetsNewEntry(st) && st.pending.value.signature == s && batchSize > 1 && -st.timeout < delay <= -10 * st.timeout
  }

  /** An entry that has events and is younger than a reading of the clock is the new
      one. */
  lemma YoungEntry(st: State, made: int, later: int, conflict: bool, i: nat)
    requires st.Valid() && Timed(st) && i < |st.Complete(made, later, conflict).entries|
    ensures var st' := st.Complete(made, later, conflict);
            && (st'.Events(i) != [] && st'.entries[i].flushed > st.clock ==> GetsNewEntry(st) && i == |st.entries|)
            && (GetsNewEntry(st) && i == |st.entries| ==>
                  st'.entries[i].flushed == made && |st'.Events(i)| == 1
                    && st'.signatureMap[st.pending.value.signature] == i)
  {
    hide Uniform, State.Stream, State.InOrder;
    NoEvents("");
    if st.pending.Some? {
      hide State.Complete;
      CompletedParts(st, made, later, conflict);
      var e := st.pending.value;
      var (st1, n) := st.Register(e, FirstFree(st.entries, 0), made);
      CommitEvents(st1.entries[n].builder, e, conflict);
    }
  }

  lemma NewEntry(st: State, made: int, later: int, conflict: bool)
    requires st.Valid() && GetsNewEntry(st)
    ensures var st', s := st.Complete(made, later, conflict), st.pending.value.signature;
            |st'.entries| == |st.entries| + 1 && s in st'.signatureMap && st'.signatureMap[s] == |st.entries|
  {
    hide Uniform, State.Stream, State.InOrder;
    CompletedParts(st, made, later, conflict);
  }

  /** After the flush of a round, a signature is stale and has events if and only if its
      entry is such a late one. */
  lemma LateEntry(st: State, made: int, later: int, conflict: bool, batchSize: nat, st': State, s: string)
    requires st.Valid() && Timed(st) && st.clock <= made <= later
    requires FlushedWhere(st.Complete(made, later, conflict), Due(st.clock, st.timeout, batchSize), st')
        && st'.timeout == st.timeout
    ensures s in StaleSignatures(st', st.clock, st.timeout) && st'.Live(s) != []
        <==> Late(st, s, made - st.clock, batchSize)
  {
    hide State.Complete, State.Valid, FirstFree;
    var c, now, due := st.Complete(made, later, conflict), st.clock, Due(st.clock, st.timeout, batchSize);
    NoEvents("");
    CompleteValid(st, made, later, conflict);
    IndexedOf(c);
    if s in StaleSignatures(st', now, st.timeout) && st'.Live(s) != [] {
      var i := st'.signatureMap[s];
      assert EntryFlushed(c, due, st', i);
      YoungEntry(st, made, later, conflict, i);
      NewEntry(st, made, later, conflict);
      NewEntryOf(c, st, s, i);
    }
    if Late(st, s, made - now, batchSize) {
      NewEntry(st, made, later, conflict);
      var i := |st.entries|;
      assert EntryFlushed(c, due, st', i);
      YoungEntry(st, made, later, conflict, i);
      assert !TimedOut(now - made, st.timeout) && !due(c.entries[i]);
      assert st'.Live(s) == c.Events(i);
    }
  }

  /** Two signatures do not share an entry. */
  lemma NewEntryOf(c: State, st: State, s: string, i: nat)
    requires c.Indexed() && s in c.signatureMap && c.signatureMap[s] == i
    ensures forall t :: t in c.signatureMap && c.signatureMap[t] == i ==> t == s
  {
    assert c.Mapped(s);
    forall t | t in c.signatureMap && c.signatureMap[t] == i ensures t == s {
      assert c.Mapped(t);
    }
  }

  /** What is known when the garbage collection of a round begins. */
  lemma StartedRound(st: State, made: int, later: int, conflict: bool, batchSize: nat, st': State)
    requires st.Valid() && st.clock <= made <= later && (st.timeout > 0 ==> AllUsed(st))
    requires FlushedWhere(st.Complete(made, later, conflict), Due(st.clock, st.timeout, batchSize), st')
    ensures st'.timeout == st.timeout && st.clock <= st'.clock && FlushedSince(st', st.clock)
    ensures st.timeout > 0 ==> StaleSignatures(st', st.clock, st.timeout) == {} && Keeps(st, st')
  {
    hide State.Complete, State.Valid, FlushedSince, Due, AllUsed, StaleSignatures;
    var a := Completed(made, later, conflict);
    NextTimed(st, a);
    DueFlushed(st.Complete(made, later, conflict), st.clock, batchSize, st');
    if st.timeout > 0 {
      NextAllUsed(st, a);
      NothingStale(st', st.clock);
    }
  }

  /** Whether the loop comes to a stale entry with events. */
  lemma LateSignatures(st: State, made: int, later: int, conflict: bool, batchSize: nat, st': State, order: seq<string>)
    requires st.Valid() && Timed(st) && st.clock <= made <= later && Lists(order, st'.signatureMap.Keys)
    requires FlushedWhere(st.Complete(made, later, conflict), Due(st.clock, st.timeout, batchSize), st')
        && st'.timeout == st.timeout
    ensures var gone := Freed(order, 0, StaleSignatures(st', st.clock, st.timeout));
            (forall s :: s in gone ==> st'.Live(s) == []) <==> forall s :: s in gone ==>
              !Late(st, s, made - st.clock, batchSize)
  {
    hide State.Complete, State.Valid, FlushedWhere, Late, Due;
    var stale := StaleSignatures(st', st.clock, st.timeout);
    FreedHalf(order, st'.signatureMap.Keys, stale);
    forall s | s in Freed(order, 0, stale)
      ensures st'.Live(s) == [] <==> !Late(st, s, made - st.clock, batchSize)
    {
      LateEntry(st, made, later, conflict, batchSize, st', s);
    }
  }

  lemma CompletedStep(r: Run, now: int, later: int, conflict: bool)
    requires Possible(r) && After(r).Valid() && After(r).clock <= now <= later
    ensures var r', st' := Then(r, Completed(now, later, conflict)), After(r).Complete(now, later, conflict);
            Possible(r') && After(r') == st' && st'.Valid() && st'.pending == None
  {
    hide State.Valid, Possible, After, State.Complete;
    OneMoreStep(r, Completed(now, later, conflict));
    CompleteValid(After(r), now, later, conflict);
  }

  lemma FlushedStep(r: Run, i: nat, now: int)
    requires Possible(r) && After(r).Valid() && i < |After(r).entries| && After(r).clock <= now
    requires After(r).ordered ==> i == After(r).active || After(r).Events(i) == []
    ensures var r', st' := Then(r, Flushed(i, now)), After(r).Flush(i, now);
            && Possible(r') && After(r') == st' && st'.Valid()
            && st' == After(r).(
                 entries := After(r).entries[i := After(r).entries[i].(builder := EMPTY, flushed := now)],
                 ready := After(r).ready + After(r).Events(i), clock := now)
  {
    hide State.Valid, Possible, After;
    OneMoreStep(r, Flushed(i, now));
    FlushValid(After(r), i, now);
  }

  lemma CollectedStep(r: Run, s: string, now: int)
    requires Possible(r) && After(r).Valid() && Collectible(After(r), s, now)
    ensures var r', st', i := Then(r, Collected(s, now)), After(r).Collect(s), After(r).signatureMap[s];
            && Possible(r') && After(r') == st' && st'.Valid()
            && st' == After(r).(entries := After(r).entries[i := After(r).entries[i].(unused := true)],
                                signatureMap := After(r).signatureMap - {s})
  {
    hide State.Valid, Possible, After, FlushedSince;
    OneMoreStep(r, Collected(s, now));
    CollectValid(After(r), s);
  }

  lemma ReadStep(r: Run, now: int)
    requires Possible(r) && After(r).Valid() && After(r).clock <= now
    ensures var r', st' := Then(r, ClockRead(now)), After(r).Read(now);
            Possible(r') && After(r') == st' && st'.Valid()
  {
    hide State.Valid, Possible, After;
    OneMoreStep(r, ClockRead(now));
    ReadValid(After(r), now);
  }

  /** What the loop frees when it comes to a signature. */
  lemma Visited(st: State, order: seq<string>, k: nat, now: int, timeout: int)
    requires st.Indexed() && Lists(order, st.signatureMap.Keys) && k < |order|
    ensures order[k] in st.signatureMap && st.signatureMap[order[k]] < |st.entries|
    ensures forall j :: k < j < |order| ==> order[j] != order[k]
    ensures var stale := StaleSignatures(st, now, timeout);
            Freed(order, k, stale)
            == if Stale(now - st.entries[st.signatureMap[order[k]]].flushed, timeout)
               then {order[k]} + Freed(order, if k + 1 < |order| then k + 2 else k + 1, stale)
               else Freed(order, k + 1, stale)
  {
    assert order[k] in order;
    assert st.Mapped(order[k]);
  }

  // ----- The builder

  /** What a call for ready events has done: nothing, because the last one was too
      recent, or a round. In that, the state after the flush, and the order in which the
      map listed its signatures. */
  datatype Round = Skipped | Ran(made: int, later: int, conflict: bool, flushed: State, order: seq<string>)

  class MultiSeriesBuilder {
    const ordered: bool
    const timeout: int
    const batchSize: nat
    var signatureMap: map<string, nat>
    var entries: seq<Entry>
    var ready: seq<Event>
    var pending: Option<Event>
    var active: nat
    var lastYield: int
    /** The last reading of the clock. */
    var clock: int
    ghost var owners: seq<string>
    ghost var input: seq<Event>
    ghost var yielded: seq<Event>
    ghost var history: Run

    ghost function View(): State
      reads this
    {
      State(ordered, timeout, clock, signatureMap, entries, ready, pending, active, owners, input, yielded)
    }

    /** The state is what a possible run leads to. */
    ghost predicate Valid()
      reads this
    {
      View().Valid() && Possible(history) && After(history) == View()
    }

    constructor (ordered: bool, timeout: int, batchSize: nat, now: int)
      ensures Valid() && input == [] && yielded == [] && clock == lastYield == now
      ensures this.ordered == ordered && this.timeout == timeout && this.batchSize == batchSize
    {
      this.ordered, this.timeout, this.batchSize := ordered, timeout, batchSize;
      signatureMap, entries, ready, pending, active, lastYield, clock := map[], [], [], None, 0, now, now;
      input, yielded, owners, history := [], [], [], Start(ordered, timeout, now);
      StartValid(ordered, timeout, now);
    }

    /** The first free entry. */
    method NextFreeIndex() returns (free: Option<nat>)
      ensures free.Some? ==> free.value < |entries| && entries[free.value].unused
      ensures forall i :: 0 <= i < (if free.Some? then free.value else |entries|) ==> !entries[i].unused
    {
      for i := 0 to |entries|
        invariant forall k :: 0 <= k < i ==> !entries[k].unused
      {
        if entries[i].unused {
          return Some(i);
        }
      }
      return None;
    }

    /** Moves the events of an entry to the ready ones. */
    method FlushEntry(i: nat) returns (ghost now: int)
      requires View().Valid() && i < |entries| && (ordered ==> i == active || entries[i].builder.Events() == [])
      modifies this`entries, this`ready, this`clock
      ensures View().Valid() && now >= old(clock) && View() == old(View()).Flush(i, now)
    {
      hide State.Valid;
      clock := Clock(clock);
      now := clock;
      ghost var before := View();
      FlushValid(old(View()), i, clock);
      ready := ready + entries[i].builder.Events();
      entries := entries[i := entries[i].(builder := EMPTY, flushed := clock)];
      assert View() == old(View()).Flush(i, now);
    }

    /** Finds or makes the entry for the pending event. An entry that is used again
        keeps the schema that it was made for. */
    method EntryForPending() returns (index: nat, ghost now: int)
      requires View().Valid() && pending.Some?
      modifies this`entries, this`signatureMap, this`owners, this`clock
      ensures View().Valid() && clock == now >= old(clock) && EntryOf(View(), index) && active < |entries|
      ensures var free := FirstFree(old(entries), 0);
              && (pending.value.signature in old(signatureMap) ==>
                 old(signatureMap)[pending.value.signature] < |old(entries)|)
              && (View(), index) == old(View()).Register(pending.value, free, now)
              && (entries[index].schema == pending.value.schema <==> old(View()).SchemaFits(pending.value))
              && (pending.value.signature !in old(signatureMap) ==>
                    (entries[index].schema == pending.value.schema
                     <==> (free.Some? ==> old(entries)[free.value].schema == pending.value.schema)))
    {
      hide State.Valid;
      var e := pending.value;
      var made := Clock(clock);
      now := made;
      var free := NextFreeIndex();
      assert free == FirstFree(entries, 0);
      RegisterValid(View(), e, free, made);
      IndexedOf(View());
      RegisterIndexed(View(), e, free, made);
      clock := made;
      if e.signature !in signatureMap {
        var i := if free.Some? then free.value else |entries|;
        signatureMap := signatureMap[e.signature := i];
        if free.None? {
          entries := entries + [Entry(e.schema, EMPTY, made, false)];
          owners := owners + [e.signature];
        } else {
          entries := entries[i := entries[i].(unused := false)];
          owners := owners[i := e.signature];
        }
      }
      index := signatureMap[e.signature];
      assert (View(), index) == old(View()).Register(e, free, made);
    }

    /** Writes the pending event to a builder. */
    method CommitTo(index: nat) returns (ghost conflict: bool)
      requires pending.Some? && index < |entries|
      modifies this`entries, this`active, this`pending
      ensures View() == old(View()).Commit(index, conflict)
      ensures active < |entries| && old(pending).value in entries[active].builder.Events()
          && entries[active].schema == old(entries)[index].schema
    {
      var finishes: bool := *;
      conflict := finishes;
      CommitEvents(entries[index].builder, pending.value, finishes);
      active := index;
      entries := entries[index := entries[index].(builder := entries[index].builder.Add(pending.value, finishes))];
      pending := None;
      assert View() == old(View()).Commit(index, conflict);
    }

    /** The pending event goes to the builder of its signature. */
    method CompleteLastEvent() returns (ghost now: int, ghost later: int, ghost conflict: bool)
      requires Valid()
      modifies this
      ensures Valid() && pending == None && input == old(input) && yielded == old(yielded)
          && lastYield == old(lastYield)
      ensures old(clock) <= now <= later && View() == old(View()).Complete(now, later, conflict)
      ensures old(pending).Some? ==>
                && (old(pending).value.signature in old(signatureMap) ==>
                   old(signatureMap)[old(pending).value.signature] < |old(entries)|)
                && active < |entries| && old(pending).value in entries[active].builder.Events()
                && (entries[active].schema == old(pending).value.schema <==> old(View()).SchemaFits(old(pending).value))
    {
      hide State.Valid, State.Complete, State.Register, State.SchemaFits, Possible, After, Uniform, FirstFree, Enabled,
        Next;
      ghost var before := View();
      now, later, conflict := clock, clock, false;
      if pending == None {
        NothingPending(before, now, later, conflict);
        return;
      }
      IndexedOf(before);
      var index: nat;
      index, now := EntryForPending();
      later := now;
      OnlyActive(View(), active);
      if ordered && index != active {
        later := FlushEntry(active);
      }
      conflict := CommitTo(index);
      CompletedParts(before, now, later, conflict);
      assert View() == before.Complete(now, later, conflict);
      CompletedStep(history, now, later, conflict);
      history := Then(history, Completed(now, later, conflict));
    }

    /** Starts a new event. */
    method AddEvent(e: Event) returns (ghost now: int, ghost later: int, ghost conflict: bool)
      requires Valid()
      modifies this
      ensures Valid() && pending == Some(e) && input == old(input) + [e] && yielded == old(yielded)
      ensures old(clock) <= now <= later && View() == old(View()).Complete(now, later, conflict).Add(e)
    {
      hide State.Valid, State.Complete;
      now, later, conflict := CompleteLastEvent();
      AddValid(View(), e);
      ghost var before := View();
      pending := Some(e);
      input := input + [e];
      assert View() == before.Add(e);
      history := Then(history, Arrive(e));
    }

    /** Drops the pending event, or the last one of the active builder. In ordered
        mode that is the last event, unless it has left its builder already. */
    method RemoveLast()
      requires Valid()
      modifies this
      ensures Valid() && yielded == old(yielded) && ready == old(ready)
      ensures old(pending).Some? ==> pending == None && input == DropLastOf(old(input), old(pending).value.signature)
      ensures old(pending) == None && old(View()).HasOpen() ==> input == DropLastOf(old(input), old(owners[active]))
      ensures ordered && (old(pending).Some? || old(View()).HasOpen()) ==>
                |old(input)| > 0 && input == old(input)[..|old(input)| - 1]
      ensures old(pending) == None && !old(View()).HasOpen() ==> input == old(input)
    {
      hide State.Valid, DropLastOf;
      IndexedOf(View());
      if pending.Some? {
        RemovePendingValid(View());
        LastPending(View());
        ghost var before := View();
        input := DropLastOf(input, pending.value.signature);
        pending := None;
        assert View() == before.RemovePending();
        history := Then(history, PendingRemoved);
        return;
      }
      if active < |entries| {
        RemoveBufferedValid(View());
        LastBuffered(View());
        ghost var before := View();
        if |entries[active].builder.open| > 0 {
          input := DropLastOf(input, owners[active]);
        }
        entries := entries[active := entries[active].(builder := entries[active].builder.RemoveLast())];
        assert View() == before.RemoveBuffered();
        history := Then(history, LastRemoved);
      }
    }

    /** Flushes the entries that satisfy a condition, once the pending event is in its
        entry. */
    method MakeEventsAvailableWhere(due: Entry -> bool) returns (ghost now: int, ghost later: int, ghost conflict: bool)
      requires Valid()
      modifies this
      ensures Valid() && pending == None && input == old(input) && yielded == old(yielded)
          && lastYield == old(lastYield)
      ensures old(clock) <= now <= later && FlushedWhere(old(View()).Complete(now, later, conflict), due, View())
    {
      hide State.Valid, State.Complete, State.Flush, Possible, After, EntryFlushed;
      now, later, conflict := CompleteLastEvent();
      ghost var before := View();
      for i := 0 to |entries|
        invariant Valid() && input == old(input) && yielded == old(yielded) && lastYield == old(lastYield)
        invariant |entries| == |before.entries| && before.clock <= clock
        invariant View() == before.(entries := entries, clock := clock,
            ready := before.ready + Available(before.entries, due, i))
        invariant forall k :: 0 <= k < i ==> EntryFlushed(before, due, View(), k)
        invariant forall k :: i <= k < |entries| ==> entries[k] == before.entries[k]
      {
        Assoc(before.ready, Available(before.entries, due, i), if due(entries[i]) then entries[i].builder.Events()
          else []);
        ghost var last := View();
        if due(entries[i]) {
          OnlyActive(View(), i);
          ghost var read := FlushEntry(i);
          FlushedStep(history, i, read);
          history := Then(history, Flushed(i, read));
        }
        StillFlushed(before, due, last, View(), i);
      }
    }

    /** The signatures in the order in which the map lists them. */
    method Listing() returns (order: seq<string>)
      ensures Lists(order, signatureMap.Keys)
    {
      order := [];
      var todo := signatureMap.Keys;
      while todo != {}
        invariant Lists(order, signatureMap.Keys - todo) && todo <= signatureMap.Keys
        decreases |todo|
      {
        var s :| s in todo;
        order, todo := order + [s], todo - {s};
      }
      assert signatureMap.Keys - {} == signatureMap.Keys;
    }

    /** Forgets a signature and frees its entry, which is empty. */
    method FreeEntry(s: string, now: int)
      requires Valid() && Collectible(View(), s, now)
      modifies this`entries, this`signatureMap, this`history
      ensures Valid() && signatureMap == old(signatureMap) - {s}
      ensures var i := old(signatureMap)[s]; entries == old(entries)[i := old(entries)[i].(unused := true)]
    {
      hide State.Valid, Possible, After, FlushedSince;
      CollectedStep(history, s, now);
      var i := signatureMap[s];
      entries := entries[i := entries[i].(unused := true)];
      signatureMap := signatureMap - {s};
      history := Then(history, Collected(s, now));
    }

    /** Frees the entries of stale signatures. After it has freed one, the loop passes
        over the next signature. It fails if it comes to a stale entry with events. */
    method GarbageCollect(now: int) returns (order: seq<string>, ok: bool)
      requires Valid() && now <= clock && FlushedSince(View(), now)
      modifies this`entries, this`signatureMap, this`history
      ensures Valid() && Lists(order, old(signatureMap).Keys) && |entries| == |old(entries)|
      ensures var gone := Freed(order, 0, StaleSignatures(old(View()), now, timeout));
              && (ok <==> forall s :: s in gone ==> old(View()).Live(s) == [])
              && (ok ==> signatureMap == old(signatureMap) - gone)
              && (ok ==> forall i :: 0 <= i < |entries| ==> entries[i] == Released(old(View()), gone, i))
    {
      hide State.Valid, Lists, StaleSignatures, Freed, Released, Possible, After, State.Collect, Uniform, Enabled, Next;
      order := Listing();
      ghost var before := View();
      ghost var stale, gone := StaleSignatures(before, now, timeout), {};
      IndexedOf(before);
      var k := 0;
      NoneFreed(before, order, stale);
      while k < |order|
        invariant Valid() && k <= |order| && Lists(order, before.signatureMap.Keys)
        invariant gone + Freed(order, k, stale) == Freed(order, 0, stale)
        invariant forall j :: k <= j < |order| ==> order[j] !in gone
        invariant forall s :: s in gone ==> before.Live(s) == []
        invariant View() == before.(signatureMap := signatureMap, entries := entries)
        invariant signatureMap == before.signatureMap - gone && |entries| == |before.entries|
        invariant FlushedSince(View(), now)
        invariant forall i :: 0 <= i < |entries| ==> entries[i] == Released(before, gone, i)
        decreases |order| - k
      {
        var s := order[k];
        Visited(before, order, k, now, timeout);
        assert before.Mapped(s);
        var i := signatureMap[s];
        if Stale(now - entries[i].flushed, timeout) {
          if entries[i].builder.Events() != [] {
            return order, false;
          }
          FreeEntry(s, now);
          assert gone + ({s} + Freed(order, if k + 1 < |order| then k + 2 else k + 1, stale))
              == (gone + {s}) + Freed(order, if k + 1 < |order| then k + 2 else k + 1, stale);
          ReleasedOne(before, gone, s);
          gone := gone + {s};
          k := k + 1;
        }
        k := if k < |order| then k + 1 else k;
      }
      ok := true;
    }

    method TakeReady() returns (out: seq<Event>)
      requires Valid()
      modifies this`ready, this`yielded, this`history
      ensures Valid() && ready == [] && out == old(ready) && yielded == old(yielded) + out
    {
      hide State.Valid;
      YieldValid(View());
      ghost var before := View();
      out := ready;
      ready, yielded := [], yielded + ready;
      assert View() == before.Yield();
      history := Then(history, Taken);
    }

    /** Hands out full and timed out batches, unless the last time was too recent. It
        fails if and only if the loop comes to a late entry. With a positive timeout it
        does not fail, and all signatures keep their entries. */
    method YieldReady() returns (out: seq<Event>, ok: bool, ghost now: int, ghost round: Round)
      requires Valid()
      modifies this
      ensures Valid() && input == old(input) && yielded == old(yielded) + out && now >= old(clock)
      ensures round.Skipped? <==> now - old(lastYield) < timeout
      ensures round.Skipped? ==> ok && out == [] && View() == old(View()).Read(now)
      ensures round.Ran? ==>
                var st := old(View()).Read(now); var gone :=
                  Freed(round.order, 0, StaleSignatures(round.flushed, now, timeout));
                && now <= round.made <= round.later
                && FlushedWhere(st.Complete(round.made, round.later, round.conflict), Due(now, timeout, batchSize),
                   round.flushed)
                && Lists(round.order, round.flushed.signatureMap.Keys)
                && (ok <==> forall s :: s in gone ==> !Late(st, s, round.made - now, batchSize))
                && (ok ==> out == round.flushed.ready && signatureMap == round.flushed.signatureMap - gone)
      ensures timeout > 0 ==> ok && AllUsed(View()) && Keeps(old(View()), View())
    {
      hide State.Valid, State.Complete, Possible, After, Lists, Freed, StaleSignatures, FlushedWhere, Due, Late;
      hide Collectible, FlushedSince, Released, AllUsed, Timed, Enabled, Next, EntryFlushed;
      clock := Clock(clock);
      now := clock;
      ReadStep(history, now);
      history := Then(history, ClockRead(now));
      KnownState(history);
      Assoc(yielded, [], []);
      ok, round := true, Skipped;
      if clock - lastYield < timeout {
        return [], true, now, Skipped;
      }
      var started := clock;
      lastYield := started;
      ghost var st := View();
      ghost var made, later, conflict := MakeEventsAvailableWhere(Due(started, timeout, batchSize));
      ghost var flushed := View();
      StartedRound(st, made, later, conflict, batchSize, flushed);
      var order;
      order, ok := GarbageCollect(started);
      round := Ran(made, later, conflict, flushed, order);
      LateSignatures(st, made, later, conflict, batchSize, flushed, order);
      if timeout > 0 {
        FreedHalf(order, flushed.signatureMap.Keys, {});
      }
      if !ok {
        return [], false, now, round;
      }
      out := TakeReady();
      KnownState(history);
    }

    /** Hands out everything that is left. */
    method Finalize() returns (out: seq<Event>)
      requires Valid()
      modifies this
      ensures Valid() && input == old(input) && yielded == old(yielded) + out
      ensures ordered ==> yielded == input
      ensures forall s :: Of(yielded, s) == Of(input, s)
    {
      hide State.Valid, State.Complete, Of, FlushedWhere, Possible, After;
      var all: Entry -> bool := _ => true;
      ghost var now, later, conflict := MakeEventsAvailableWhere(all);
      AllFlushed(old(View()).Complete(now, later, conflict), all, View());
      out := TakeReady();
      AllYielded(View());
    }
  }

  lemma IndexedOf(st: State)
    requires st.Valid()
    ensures st.Indexed()
  {
    hide State.Indexed, State.Stream, State.InOrder;
  }

  lemma LastPending(st: State)
    requires st.Valid() && st.pending.Some?
    ensures st.ordered ==>
              |st.input| > 0 && DropLastOf(st.input, st.pending.value.signature) == st.input[..|st.input| - 1]
  {
    if st.ordered {
      var front := st.yielded + st.ready + st.Buffered();
      DropLast(front, st.pending.value);
      assert (front + [st.pending.value])[..|front|] == front;
    }
  }

  lemma LastBuffered(st: State)
    requires st.Valid() && st.active < |st.entries| && st.pending == None
    ensures |st.entries| == |st.owners|
    ensures st.ordered && |st.entries[st.active].builder.open| > 0 ==>
              |st.input| > 0 && DropLastOf(st.input, st.owners[st.active]) == st.input[..|st.input| - 1]
  {
    hide DropLastOf, Uniform;
    var b := st.entries[st.active].builder;
    if st.ordered && |b.open| > 0 {
      var rest, e := b.RemoveLast().Events(), b.open[|b.open| - 1];
      var front := st.yielded + st.ready;
      assert st.Owned(st.active);
      RemovedLast(b);
      UniformInit(rest, e, st.owners[st.active]);
      Assoc(front, rest, [e]);
      Assoc(front + st.Buffered(), [], []);
      DropLast(front + rest, e);
      assert ((front + rest) + [e])[..|front + rest|] == front + rest;
    }
  }

  lemma OnlyActive(st: State, i: nat)
    requires st.Valid() && i < |st.entries|
    ensures st.ordered ==> i == st.active || st.Events(i) == []
  {
    hide State.Indexed, State.Stream;
  }

  lemma AllYielded(st: State)
    requires st.Valid() && st.ready == [] && st.pending == None && forall i :: 0 <= i < |st.entries| ==>
        st.entries[i].builder == EMPTY
    ensures st.ordered ==> st.yielded == st.input
    ensures forall s :: Of(st.yielded, s) == Of(st.input, s)
  {
    hide Of;
    NoEvents("");
    Assoc(st.yielded, [], []);
    forall s ensures Of(st.yielded, s) == Of(st.input, s) {
      assert st.Stream(s) && st.Mapped(s);
      NoEvents(s);
      Assoc(Of(st.yielded, s), [], []);
    }
  }

  // ----- What depends on the timeout

  /** A first event comes in when the builder is made, and goes to a new entry. */
  lemma OneBuffered(a: Event, timeout: int, start: int) returns (r: Run)
    ensures r == Then(Then(Start(true, timeout, start), Arrive(a)), Completed(start, start, false))
    ensures Possible(r) && TimeoutOf(r) == timeout
    ensures forall f: string -> string :: Named([a], f) ==> AllNamed(r, f)
    ensures After(r) == State(true, timeout, start, map[a.signature := 0],
        [Entry(a.schema, SeriesBuilder([], [a]), start, false)],
                              [], None, 0, [a.signature], [a], [])
  {
    var r0 := Start(true, timeout, start);
    var r1 := Then(r0, Arrive(a));
    r := Then(r1, Completed(start, start, false));
    var s1 := After(r0).(pending := Some(a), input := [a]);
    var s2 := s1.(signatureMap := map[a.signature := 0],
      entries := [Entry(a.schema, SeriesBuilder([], [a]), start, false)],
                  owners := [a.signature], pending := None);
    assert After(r1) == s1;
    assert TimeoutOf(r1) == timeout;
    assert map[][a.signature := 0] == s2.signatureMap;
    assert s1.Register(a, None, start).0.entries == [Entry(a.schema, EMPTY, start, false)];
    assert [] + [a.signature] == s2.owners;
    assert s1.Register(a, None, start)
      == (s2.(entries := [Entry(a.schema, EMPTY, start, false)], pending := Some(a)), 0);
    assert After(r) == s2;
    forall f: string -> string | Named([a], f) ensures AllNamed(r, f) {
      assert AllNamed(r1, f);
    }
  }

  /** A round at time 0 flushes it: it is due there, with any batch size, if the time
      passed is at least the timeout. */
  lemma OneEvent(a: Event, timeout: int, start: int) returns (r: Run)
    requires start <= 0
    ensures r == Then(Then(Then(Then(Start(true, timeout, start), Arrive(a)), Completed(start, start, false)),
        ClockRead(0)), Flushed(0, 0))
    ensures Possible(r) && TimeoutOf(r) == timeout
    ensures forall f: string -> string :: Named([a], f) ==> AllNamed(r, f)
    ensures After(r) == State(true, timeout, 0, map[a.signature := 0], [Entry(a.schema, EMPTY, 0, false)], [a], None, 0,
                              [a.signature], [a], [])
  {
    hide Possible, After;
    var r2 := OneBuffered(a, timeout, start);
    var r3 := Then(r2, ClockRead(0));
    r := Then(r3, Flushed(0, 0));
    OneMoreStep(r2, ClockRead(0));
    OneMoreStep(r3, Flushed(0, 0));
    forall f: string -> string | Named([a], f) ensures AllNamed(r, f) {
      assert AllNamed(r2, f) && AllNamed(r3, f);
    }
  }

  lemma AllNamedOn(r: Run, first: Action, second: Action, e: Event, last: Action)
    requires !first.Arrive? && !second.Arrive? && !last.Arrive?
    ensures forall f: string -> string :: AllNamed(r, f) && Named([e], f) ==>
              AllNamed(Then(Then(Then(Then(r, first), second), Arrive(e)), last), f)
  {
    forall f: string -> string | AllNamed(r, f) && Named([e], f)
      ensures AllNamed(Then(Then(Then(Then(r, first), second), Arrive(e)), last), f)
    {
      assert AllNamed(Then(r, first), f);
      assert AllNamed(Then(Then(r, first), second), f);
      assert AllNamed(Then(Then(Then(r, first), second), Arrive(e)), f);
    }
  }

  /** With a timeout that is not positive, an entry that was flushed in a round can be
      collected in it. If it is used again for another schema, it keeps the old one: an
      event of schema "b" ends up in an entry made for schema "a". */
  lemma ReusedEntryKeepsSchema(a: Event, b: Event, timeout: int) returns (r: Run)
    requires a.signature != b.signature && a.schema != b.schema && timeout <= 0
    ensures Possible(r) && TimeoutOf(r) == timeout
    ensures forall f: string -> string :: Named([a], f) && Named([b], f) ==> AllNamed(r, f)
    ensures var st := After(r);
            |st.entries| == 1 && st.Events(0) == [b] && st.entries[0].schema == a.schema && !Placed(st, 0)
  {
    hide AllNamed, Named, Placed, Possible, After;
    var idle := OneEvent(a, timeout, 0);
    var s0 := After(idle);
    var s1 := s0.(signatureMap := map[], entries := [Entry(a.schema, EMPTY, 0, true)]);
    var s2 := s1.(ready := [], yielded := [a]);
    var s3 := s2.(pending := Some(b), input := [a, b]);
    var r1 := Then(idle, Collected(a.signature, 0));
    var r2 := Then(r1, Taken);
    var r3 := Then(r2, Arrive(b));
    r := Then(r3, Completed(0, 0, false));
    OneMoreStep(idle, Collected(a.signature, 0));
    assert After(r1) == s1;
    OneMoreStep(r1, Taken);
    assert After(r2) == s2;
    OneMoreStep(r2, Arrive(b));
    assert After(r3) == s3;
    OneMoreStep(r3, Completed(0, 0, false));
    AllNamedOn(idle, Collected(a.signature, 0), Taken, b, Completed(0, 0, false));
    OtherSchema(After(r), b);
  }

  lemma OtherSchema(st: State, e: Event)
    requires |st.entries| > 0 && st.Events(0) == [e] && st.entries[0].schema != e.schema
    ensures !Placed(st, 0)
  {
    assert st.Events(0)[0] == e;
  }

  ghost predicate PlacedIn(r: Run, timeout: int, schemaOf: string -> string)
  {
    Possible(r) && TimeoutOf(r) == timeout && AllNamed(r, schemaOf) ==> AlwaysPlaced(r)
  }

  /** All events are in entries with their schema, in every run, if and only if the
      timeout is positive. */
  lemma PlacedExactly(timeout: int)
    ensures (forall r: Run, schemaOf: string -> string :: PlacedIn(r, timeout, schemaOf)) <==> timeout > 0
  {
    hide Possible, AllNamed, AlwaysFits, Placed;
    if timeout > 0 {
      forall r: Run, schemaOf: string -> string ensures PlacedIn(r, timeout, schemaOf) {
        if Possible(r) && TimeoutOf(r) == timeout && AllNamed(r, schemaOf) {
          PositiveFits(r);
          SchemasPlaced(r, schemaOf);
        }
      }
    } else {
      var a, b := Event("a", "x", 0), Event("b", "y", 0);
      var f := (s: string) => if s == "a" then "x" else "y";
      var r := ReusedEntryKeepsSchema(a, b, timeout);
      assert !PlacedIn(r, timeout, f);
    }
  }

  /** With a positive timeout, a signature that has been idle for ten timeouts when a
      round begins is flushed again and no longer counts as idle. It stays for ever. */
  lemma IdleSignatureStays(a: Event, timeout: int) returns (idle: Run, r: Run)
    requires timeout > 0
    ensures Possible(r) && TimeoutOf(r) == timeout
    ensures StaleSignatures(After(idle), 10 * timeout, timeout) == {a.signature}
    ensures r == Then(Then(idle, ClockRead(10 * timeout)), Flushed(0, 10 * timeout))
    ensures FlushedSince(After(r), 10 * timeout) && StaleSignatures(After(r), 10 * timeout, timeout) == {}
    ensures forall later: Run :: Possible(later) && Extends(later, r) && TimeoutOf(later) == timeout ==>
        a.signature in After(later).signatureMap
  {
    hide Possible, After, Extends;
    idle := OneEvent(a, timeout, -timeout);
    var now := 10 * timeout;
    OneMoreStep(idle, ClockRead(now));
    OneMoreStep(Then(idle, ClockRead(now)), Flushed(0, now));
    r := Then(Then(idle, ClockRead(now)), Flushed(0, now));
    NothingStale(After(r), now);
    forall later: Run | Possible(later) && Extends(later, r) && TimeoutOf(later) == timeout
      ensures a.signature in After(later).signatureMap
    {
      SignaturesStay(later, r);
    }
  }

  /** Two events come in and go to new entries before any round. */
  lemma TwoEvents(a: Event, b: Event, timeout: int) returns (r: Run)
    requires a.signature != b.signature
    ensures Possible(r) && TimeoutOf(r) == timeout
    ensures After(r) == State(true, timeout, 0, map[a.signature := 0, b.signature := 1],
                              [Entry(a.schema, EMPTY, 0, false), Entry(b.schema, SeriesBuilder([], [b]), 0, false)],
                              [a], None, 1, [a.signature, b.signature], [a, b], [])
  {
    hide Possible, After;
    var r1 := OneBuffered(a, timeout, 0);
    var s1 := After(r1);
    var r2 := Then(r1, Arrive(b));
    r := Then(r2, Completed(0, 0, false));
    var s2 := s1.(pending := Some(b), input := [a, b]);
    OneMoreStep(r1, Arrive(b));
    assert After(r2) == s2;
    OneMoreStep(r2, Completed(0, 0, false));
    assert FirstFree(s2.entries, 0) == None;
    var s3 := s2.Register(b, None, 0).0;
    assert s3.entries == [s1.entries[0], Entry(b.schema, EMPTY, 0, false)];
    assert s3.owners == [a.signature, b.signature];
    assert s3.signatureMap == map[a.signature := 0, b.signature := 1];
    var s4 := s3.Flush(0, 0);
    assert s4.ready == [a];
    assert After(r) == s4.Commit(1, false);
    assert EMPTY.Add(b, false) == SeriesBuilder([], [b]);
    assert After(r).entries == [Entry(a.schema, EMPTY, 0, false), Entry(b.schema, SeriesBuilder([], [b]), 0, false)];
  }

  /** With a timeout that is not positive, two neighbours that were flushed in a round can
      both be stale in it; then the second one stays. */
  lemma StaleNeighbourStays(a: Event, b: Event, timeout: int) returns (r: Run)
    requires a.signature != b.signature && timeout <= 0
    ensures Possible(r) && TimeoutOf(r) == timeout && FlushedSince(After(r), 0) && Collectible(After(r), a.signature, 0)
    ensures StaleSignatures(After(r), 0, timeout) == After(r).signatureMap.Keys == {a.signature, b.signature}
    ensures var order := [a.signature, b.signature];
            Lists(order, After(r).signatureMap.Keys) && Freed(order, 0, {a.signature, b.signature}) == {a.signature}
  {
    hide Possible, After;
    var r0 := TwoEvents(a, b, timeout);
    var s0 := After(r0);
    OneMoreStep(r0, ClockRead(0));
    OneMoreStep(Then(r0, ClockRead(0)), Flushed(0, 0));
    OneMoreStep(Then(Then(r0, ClockRead(0)), Flushed(0, 0)), Flushed(1, 0));
    r := Then(Then(Then(r0, ClockRead(0)), Flushed(0, 0)), Flushed(1, 0));
    assert After(r).entries == [Entry(a.schema, EMPTY, 0, false), Entry(b.schema, EMPTY, 0, false)];
    assert Freed([a.signature, b.signature], 2, {a.signature, b.signature}) == {};
  }

  /** With a negative timeout, the new entry of the pending event can be late; then the
      loop comes to it, and the assertion fails. */
  lemma AssertionFails(a: Event, timeout: int, delay: int, batchSize: nat) returns (st: State, flushed: State)
    requires -timeout < delay <= -10 * timeout && batchSize > 1
    ensures st == After(Then(Then(Start(true, timeout, 0), Arrive(a)), ClockRead(0)))
        && Late(st, a.signature, delay, batchSize)
    ensures FlushedWhere(st.Complete(delay, delay, false), Due(0, timeout, batchSize), flushed)
        && flushed.Live(a.signature) == [a]
    ensures Lists([a.signature], flushed.signatureMap.Keys)
    ensures a.signature in Freed([a.signature], 0, StaleSignatures(flushed, 0, timeout))
  {
    st := State(true, timeout, 0, map[], [], [], Some(a), 0, [], [a], []);
    assert After(Then(Start(true, timeout, 0), Arrive(a))) == st;
    assert FirstFree(st.entries, 0) == None;
    var s1 := st.Register(a, None, delay).0;
    assert s1.entries == [Entry(a.schema, EMPTY, delay, false)];
    flushed := st.Complete(delay, delay, false);
    assert flushed == s1.Commit(0, false);
    assert flushed.Events(0) == [a];
    assert !Due(0, timeout, batchSize)(flushed.entries[0]);
    assert Available(flushed.entries, Due(0, timeout, batchSize), 0) == [];
    assert flushed.signatureMap.Keys == {a.signature};
  }
}
