/** Replacing partitions by transformed ones so that a crash at any time loses no
    data. Outputs are written to a staging directory first; a marker file commits
    the transform; what a committed transform still has to do is done again at the
    next start. */
module PartitionTransforms {
  type Id = nat

  datatype Option<T> = None | Some(value: T)

  datatype Transform = Transform(ins: set<Id>, outs: set<Id>, keep: bool)

  /** How far a running transform has come. */
  datatype Stage = Writing | Renaming | Erasing

  datatype Phase = Down | Recovering | Cleaning | Running

  /** On disk: the partitions in the index directory, those in the staging directory,
      and the markers, named after their transforms. In memory: recovery erasures
      that are queued, the partitions known to the index, and the running
      transforms. The rest is history: all transforms that were begun, those whose
      marker was written, the partitions that hold data (ingested ones, and the
      outputs of committed transforms), all ids ever used, and the inputs whose
      queued erasure was forgotten in a crash when no marker named them any more. */
  datatype State = State(
    phase: Phase,
    index: set<Id>,
    staged: set<Id>,
    markers: set<Id>,
    queued: set<Id>,
    persisted: set<Id>,
    active: map<Id, Stage>,
    begun: map<Id, Transform>,
    committed: set<Id>,
    born: set<Id>,
    used: set<Id>,
    leaked: set<Id>)
  {
    predicate At(t: Id, stage: Stage) {
      t in active && t in begun && active[t] == stage
    }

    /** Recovery reads the marker of the transform. */
    predicate Redoes(t: Id) {
      phase == Recovering && t in markers && t in begun
    }

    /** A written marker names the partition as an input that is to be erased. */
    ghost predicate MarkedInput(p: Id) {
      exists t :: t in markers && t in begun && !begun[t].keep && p in begun[t].ins
    }

    /** The partition is staged, and a written marker names it as an output. */
    ghost predicate MarkedOutput(p: Id) {
      p in staged && exists t :: t in markers && t in begun && p in begun[t].outs
    }

    /** A committed transform has taken over the data of the partition. */
    ghost predicate Consumed(p: Id) {
      exists t :: t in committed && t in begun && !begun[t].keep && p in begun[t].ins
    }

    ghost predicate Safe(p: Id) {
      p in index || MarkedOutput(p) || Consumed(p)
    }

    // ----- Invariant

    predicate Named()
    {
      && markers <= committed <= begun.Keys
      && active.Keys <= begun.Keys
      && (active != map[] ==> phase == Running)
      && (phase == Running ==> markers <= active.Keys)
    }

    predicate Known()
    {
      && index <= born <= used && persisted <= born && staged <= used
      && (forall t :: t in begun ==> begun[t].outs <= used && begun[t].ins <= born && begun[t].ins !! begun[t].outs)
      && (forall t :: t in begun ==> if t in committed then begun[t].outs <= born else begun[t].outs !! born)
    }

    predicate Distinct()
    {
      forall t, u :: t in begun && u in begun && t != u ==> begun[t].outs !! begun[u].outs
    }

    predicate Fresh()
    {
      Known() && Distinct()
    }

    predicate Unstaged()
    {
      staged !! persisted && forall t :: t in begun ==> begun[t].ins !! staged
    }

    predicate Stages()
    {
      forall t :: t in active && t in begun ==> if active[t] == Writing then t !in committed else t in markers
    }

    predicate Renamed()
    {
      && (forall t :: t in active && t in begun && active[t] == Erasing ==> begun[t].outs !! staged)
      && (phase == Cleaning ==> forall t :: t in markers && t in begun ==> begun[t].outs !! staged)
    }

    predicate Staging()
    {
      Unstaged() && Stages() && Renamed()
    }

    ghost predicate OnlyActiveStaged()
    {
      phase == Running ==> forall p :: p in staged ==> exists t :: t in active && t in begun && p in begun[t].outs
    }

    ghost predicate AllSafe()
    {
      forall p :: p in born ==> Safe(p)
    }

    /** An input that a committed transform has replaced is on disk only if it is
        still to be erased, or if a crash made the index forget to do so. */
    ghost predicate Duplicates()
    {
      && (forall p :: p in queued || p in leaked ==> Consumed(p))
      && (forall p :: p in index && Consumed(p) ==> MarkedInput(p) || p in queued || p in leaked)
      && (phase == Cleaning ==> forall p :: p in index && MarkedInput(p) ==> p in queued)
    }

    ghost predicate Valid()
    {
      Named() && Fresh() && Staging() && OnlyActiveStaged() && AllSafe() && Duplicates()
    }
  }

  const START := State(Running, {}, {}, {}, {}, {}, map[], map[], {}, {}, {}, {})

  // ----- Steps

  datatype Action =
    | Ingest(p: Id)
    | Begin(t: Id, transform: Transform)
    | WriteOutput(t: Id, p: Id)
    | WriteMarker(t: Id)
    | Rename(t: Id, p: Id)
    | RenamesDone(t: Id)
    | EraseInput(t: Id, p: Id)
    | EraseMarker(t: Id)
    | Crash
    | Restart
    | QueueErasure(t: Id, p: Id)
    | RecoverOutput(t: Id, p: Id)
    | NullInputs(t: Id)
    | StartCleaning
    | RemoveStaged(p: Id)
    | RemoveMarker(t: Id)
    | FinishCleaning
    | EraseQueued(p: Id)

  ghost predicate Enabled(s: State, a: Action)
  {
    match a
    case Ingest(p) => s.phase == Running && p !in s.used
    case Begin(t, x) =>
      && s.phase == Running && t !in s.begun && x.ins != {} && x.ins <= s.persisted && x.outs !! s.used
      && forall u :: u in s.active && u in s.begun ==> s.begun[u].ins !! x.ins
    case WriteOutput(t, p) => s.At(t, Writing) && p in s.begun[t].outs
    case WriteMarker(t) => s.At(t, Writing) && s.begun[t].outs <= s.staged
    case Rename(t, p) => s.At(t, Renaming) && p in s.begun[t].outs && p in s.staged
    case RenamesDone(t) => s.At(t, Renaming) && s.begun[t].outs !! s.staged
    case EraseInput(t, p) => s.At(t, Erasing) && !s.begun[t].keep && p in s.begun[t].ins
    case EraseMarker(t) => s.At(t, Erasing) && (s.begun[t].keep || s.begun[t].ins !! s.index)
    case Crash => true
    case Restart => s.phase == Down
    case QueueErasure(t, p) => s.Redoes(t) && !s.begun[t].keep && p in s.begun[t].ins && p in s.index
    case RecoverOutput(t, p) => s.Redoes(t) && !s.begun[t].keep && p in s.begun[t].outs && p in s.staged
    case NullInputs(t) => s.Redoes(t) && s.begun[t].keep
    case StartCleaning =>
      && s.phase == Recovering
      && (forall t :: t in s.markers && t in s.begun ==> !s.begun[t].keep && s.begun[t].outs !! s.staged)
      && (forall p :: p in s.index && s.MarkedInput(p) ==> p in s.queued)
    case RemoveStaged(p) => s.phase == Cleaning && p in s.staged
    case RemoveMarker(t) => s.phase == Cleaning && t in s.markers
    case FinishCleaning => s.phase == Cleaning && s.staged == {} && s.markers == {}
    case EraseQueued(p) => s.phase != Down && p in s.queued
  }

  ghost function Crashed(s: State): State
  {
    s.(phase := Down, queued := {}, persisted := {}, active := map[],
       leaked := s.leaked + set p | p in s.queued && !s.MarkedInput(p))
  }

  ghost function Next(s: State, a: Action): State
  {
    if !Enabled(s, a) then s
    else match a
      case Ingest(p) => s.(index := s.index + {p}, born := s.born + {p}, used := s.used + {p},
        persisted := s.persisted + {p})
      case Begin(t, x) => s.(begun := s.begun[t := x], active := s.active[t := Writing], used := s.used + x.outs)
      case WriteOutput(t, p) => s.(staged := s.staged + {p})
      case WriteMarker(t) =>
        s.(markers := s.markers + {t}, committed := s.committed + {t}, born := s.born + s.begun[t].outs,
          active := s.active[t := Renaming])
      case Rename(t, p) => s.(staged := s.staged - {p}, index := s.index + {p})
      case RenamesDone(t) => s.(active := s.active[t := Erasing], persisted := s.persisted + s.begun[t].outs)
      case EraseInput(t, p) => s.(index := s.index - {p}, persisted := s.persisted - {p})
      case EraseMarker(t) => s.(markers := s.markers - {t}, active := s.active - {t})
      case Crash => Crashed(s)
      case Restart => s.(phase := Recovering)
      case QueueErasure(t, p) => s.(queued := s.queued + {p})
      case RecoverOutput(t, p) => s.(staged := s.staged - {p}, index := s.index + {p})
      case NullInputs(t) => Crashed(s)
      case StartCleaning => s.(phase := Cleaning)
      case RemoveStaged(p) => s.(staged := s.staged - {p})
      case RemoveMarker(t) => s.(markers := s.markers - {t})
      case FinishCleaning => s.(phase := Running, persisted := s.index)
      case EraseQueued(p) => s.(index := s.index - {p}, queued := s.queued - {p})
  }

  lemma NextNamed(s: State, a: Action)
    requires s.Valid()
    ensures Next(s, a).Named()
  {
    hide State.OnlyActiveStaged, State.AllSafe, State.Duplicates, State.MarkedInput, State.MarkedOutput, State.Consumed;
  }

  lemma NextKnown(s: State, a: Action)
    requires s.Valid()
    ensures Next(s, a).Known()
  {
    hide State.OnlyActiveStaged, State.AllSafe, State.Duplicates, State.MarkedInput, State.MarkedOutput, State.Consumed;
    hide State.Unstaged, State.Renamed;
  }

  lemma NextDistinct(s: State, a: Action)
    requires s.Valid()
    ensures Next(s, a).Distinct()
  {
    hide State.OnlyActiveStaged, State.AllSafe, State.Duplicates, State.MarkedInput, State.MarkedOutput, State.Consumed;
    hide State.Unstaged, State.Renamed, State.Stages, State.Named;
  }

  lemma NextUnstaged(s: State, a: Action)
    requires s.Valid()
    ensures Next(s, a).Unstaged()
  {
    hide State.OnlyActiveStaged, State.AllSafe, State.Duplicates, State.MarkedInput, State.MarkedOutput, State.Consumed;
    hide State.Renamed;
  }

  lemma NextStages(s: State, a: Action)
    requires s.Valid()
    ensures Next(s, a).Stages()
  {
    hide State.OnlyActiveStaged, State.AllSafe, State.Duplicates, State.MarkedInput, State.MarkedOutput, State.Consumed;
    hide State.Unstaged, State.Renamed, State.Fresh;
  }

  lemma NextRenamed(s: State, a: Action)
    requires s.Valid()
    ensures Next(s, a).Renamed()
  {
    hide State.OnlyActiveStaged, State.AllSafe, State.Duplicates, State.MarkedInput, State.MarkedOutput, State.Consumed;
    hide State.Unstaged;
  }

  lemma NextOnlyActiveStaged(s: State, a: Action)
    requires s.Valid()
    ensures Next(s, a).OnlyActiveStaged()
  {
    hide State.AllSafe, State.Duplicates, State.Unstaged, State.Stages, State.Fresh, Enabled, Next;
    var s' := Next(s, a);
    Grows(s, a);
    forall p | s'.phase == Running && p in s'.staged
      ensures exists t :: t in s'.active && t in s'.begun && p in s'.begun[t].outs
    {
      var t := StagedBy(s, a, p);
    }
  }

  lemma StagedBy(s: State, a: Action, p: Id) returns (t: Id)
    requires s.Named() && s.Renamed() && s.OnlyActiveStaged() && Next(s, a).phase == Running && p in Next(s, a).staged
    ensures t in s.begun && p in s.begun[t].outs && t in Next(s, a).active
  {
    hide State.MarkedInput;
    if p in s.staged {
      t :| t in s.active && t in s.begun && p in s.begun[t].outs;
    } else {
      t := a.t;
    }
  }

  lemma NextAllSafe(s: State, a: Action)
    requires s.Valid()
    ensures Next(s, a).AllSafe()
  {
    hide State.Duplicates, State.OnlyActiveStaged;
    var s' := Next(s, a);
    forall p | p in s'.born ensures s'.Safe(p) {
      if p in s.born {
        NextSafe(s, a, p);
      } else {
      }
    }
  }

  lemma NextSafe(s: State, a: Action, p: Id)
    requires s.Valid() && p in s.born
    ensures Next(s, a).Safe(p)
  {
    hide State.OnlyActiveStaged, State.MarkedInput, Enabled, Next, State.Fresh, State.Named, State.Staging,
      State.Duplicates;
    assert s.Safe(p);
    if s.Consumed(p) {
      KeepsConsumed(s, a, p);
    } else if p in s.index {
      KeepsInIndex(s, a, p);
    } else {
      KeepsMarkedOutput(s, a, p);
    }
  }

  lemma KeepsInIndex(s: State, a: Action, p: Id)
    requires s.Valid() && p in s.index && !s.Consumed(p)
    ensures p in Next(s, a).index
  {
    hide State.OnlyActiveStaged, State.MarkedInput, State.MarkedOutput, State.AllSafe;
  }

  /** A staged output of a committed transform stays until it is renamed. */
  lemma KeepsMarkedOutput(s: State, a: Action, p: Id)
    requires s.Valid() && s.MarkedOutput(p)
    ensures Next(s, a).MarkedOutput(p) || p in Next(s, a).index
  {
    hide State.OnlyActiveStaged, State.MarkedInput, State.Consumed, State.AllSafe, State.Duplicates;
    hide State.Unstaged, State.Stages, State.Fresh;
    Grows(s, a);
    var t :| t in s.markers && t in s.begun && p in s.begun[t].outs;
  }

  /** History only grows. */
  lemma Grows(s: State, a: Action)
    requires s.Named()
    ensures s.committed <= Next(s, a).committed && s.born <= Next(s, a).born
    ensures forall t :: t in s.begun ==> t in Next(s, a).begun && Next(s, a).begun[t] == s.begun[t]
  {
    hide State.MarkedInput;
  }

  lemma KeepsConsumed(s: State, a: Action, p: Id)
    requires s.Valid()
    ensures s.Consumed(p) ==> Next(s, a).Consumed(p)
  {
    hide Next, Enabled, State.Fresh, State.Staging, State.OnlyActiveStaged, State.AllSafe, State.Duplicates;
    Grows(s, a);
  }

  lemma NextDuplicates(s: State, a: Action)
    requires s.Valid()
    ensures Next(s, a).Duplicates()
  {
    hide State.OnlyActiveStaged, State.AllSafe, State.MarkedInput, State.MarkedOutput, State.Consumed, Next, Enabled,
      State.Fresh;
    hide State.Staging, State.Named;
    var s' := Next(s, a);
    forall p | p in s'.queued || p in s'.leaked ensures s'.Consumed(p) {
      QueuedConsumed(s, a, p);
    }
    forall p | p in s'.index && s'.Consumed(p) ensures s'.MarkedInput(p) || p in s'.queued || p in s'.leaked {
      Remembered(s, a, p);
    }
    forall p | s'.phase == Cleaning && p in s'.index && s'.MarkedInput(p) ensures p in s'.queued {
      CleaningQueued(s, a, p);
    }
  }

  lemma QueuedConsumed(s: State, a: Action, p: Id)
    requires s.Valid() && (p in Next(s, a).queued || p in Next(s, a).leaked)
    ensures Next(s, a).Consumed(p)
  {
    hide State.OnlyActiveStaged, State.AllSafe, State.MarkedInput, State.MarkedOutput, State.Fresh, State.Staging;
    KeepsConsumed(s, a, p);
  }

  lemma Remembered(s: State, a: Action, p: Id)
    requires s.Valid() && p in Next(s, a).index && Next(s, a).Consumed(p)
    ensures Next(s, a).MarkedInput(p) || p in Next(s, a).queued || p in Next(s, a).leaked
  {
    hide State.OnlyActiveStaged, State.AllSafe, State.MarkedOutput, Enabled, Next, State.MarkedInput;
    if p in s.index && s.Consumed(p) {
      StillRemembered(s, a, p);
    } else if p !in s.index {
      NewNotConsumed(s, a, p);
    } else {
      NewlyConsumed(s, a, p);
    }
  }

  lemma StillRemembered(s: State, a: Action, p: Id)
    requires s.Valid() && p in s.index && s.Consumed(p) && p in Next(s, a).index
    ensures Next(s, a).MarkedInput(p) || p in Next(s, a).queued || p in Next(s, a).leaked
  {
    hide State.OnlyActiveStaged, State.AllSafe, State.MarkedOutput, State.Consumed, State.Fresh, State.Staging;
    var s' := Next(s, a);
    Grows(s, a);
    if s.MarkedInput(p) {
      var t :| t in s.markers && t in s.begun && !s.begun[t].keep && p in s.begun[t].ins;
      if t !in s'.markers && a.RemoveMarker? {
        assert p in s.queued;
      }
    }
  }

  /** What comes into the index was not an input before. */
  lemma NewNotConsumed(s: State, a: Action, p: Id)
    requires s.Valid() && p !in s.index && p in Next(s, a).index
    ensures !Next(s, a).Consumed(p)
  {
    hide State.OnlyActiveStaged, State.AllSafe, State.MarkedOutput, State.MarkedInput, State.Duplicates;
  }

  lemma NewlyConsumed(s: State, a: Action, p: Id)
    requires s.Valid() && !s.Consumed(p) && Next(s, a).Consumed(p)
    ensures Next(s, a).MarkedInput(p)
  {
    hide State.OnlyActiveStaged, State.AllSafe, State.MarkedOutput, State.Duplicates, State.Fresh, State.Staging;
    var s' := Next(s, a);
    var t :| t in s'.committed && t in s'.begun && !s'.begun[t].keep && p in s'.begun[t].ins;
    assert t !in s.committed;
    assert t in s'.markers;
  }

  lemma CleaningQueued(s: State, a: Action, p: Id)
    requires s.Valid() && Next(s, a).phase == Cleaning && p in Next(s, a).index && Next(s, a).MarkedInput(p)
    ensures p in Next(s, a).queued
  {
    hide State.OnlyActiveStaged, State.AllSafe, State.MarkedOutput, State.Consumed, State.Fresh, State.Staging;
    var s' := Next(s, a);
    assert s.MarkedInput(p) && p in s.index by {
      var t :| t in s'.markers && t in s'.begun && !s'.begun[t].keep && p in s'.begun[t].ins;
      assert t in s.markers && t in s.begun && s.begun[t] == s'.begun[t];
    }
  }

  lemma NextValid(s: State, a: Action)
    requires s.Valid()
    ensures Next(s, a).Valid()
  {
    hide Next, State.Named, State.Known, State.Distinct, State.Unstaged, State.Stages, State.Renamed,
      State.OnlyActiveStaged;
    hide State.AllSafe, State.Duplicates;
    NextNamed(s, a);
    NextKnown(s, a);
    NextDistinct(s, a);
    NextUnstaged(s, a);
    NextStages(s, a);
    NextRenamed(s, a);
    NextOnlyActiveStaged(s, a);
    NextAllSafe(s, a);
    NextDuplicates(s, a);
  }

  // ----- Main results, for every run with crashes at any step

  datatype Run = First | Then(prev: Run, action: Action)

  ghost function After(r: Run): State
  {
    match r
    case First => START
    case Then(prev, a) => Next(After(prev), a)
  }

  lemma {:induction false} AlwaysValid(r: Run)
    ensures After(r).Valid()
  {
    hide State.Valid, Next;
    match r
    case First => StartValid();
    case Then(prev, a) =>
      AlwaysValid(prev);
      NextValid(After(prev), a);
  }

  lemma StartValid()
    ensures START.Valid()
  {
  }

  /** No data is lost: each partition that ever held data is in the index directory,
      or staged under a written marker, or replaced by a committed transform. */
  lemma NothingLost(r: Run)
    ensures forall p :: p in After(r).born ==> After(r).Safe(p)
  {
    hide After, State.Safe;
    AlwaysValid(r);
  }

  /** Another committed transform has replaced the partition. */
  ghost predicate ReplacedByOther(s: State, t: Id, p: Id)
  {
    exists u :: u != t && u in s.committed && u in s.begun && !s.begun[u].keep && p in s.begun[u].ins
  }

  /** Before its marker is written, a transform has taken nothing away: its inputs are
      in the index directory unless another committed transform has replaced them.
      Once it is written, all outputs are there instead, in the index directory or
      staged under the marker, unless a later transform has replaced them. */
  lemma InputsOrOutputs(r: Run)
    ensures forall t, p :: t in After(r).begun && t !in After(r).committed && p in After(r).begun[t].ins ==>
              p in After(r).index || ReplacedByOther(After(r), t, p)
    ensures forall t, p :: t in After(r).begun && t in After(r).committed && p in After(r).begun[t].outs ==>
              p in After(r).index || After(r).MarkedOutput(p) || ReplacedByOther(After(r), t, p)
  {
    hide After, State.OnlyActiveStaged, State.Duplicates, State.MarkedInput;
    AlwaysValid(r);
    var s := After(r);
    forall t, p | t in s.begun && t in s.committed && p in s.begun[t].outs
      ensures p in s.index || s.MarkedOutput(p) || ReplacedByOther(s, t, p)
    {
      assert s.Safe(p);
    }
  }

  /** No transform is running and no erasure is queued. */
  ghost predicate AtRest(s: State)
  {
    s.phase == Running && s.active == map[] && s.queued == {}
  }

  /** At rest nothing is staged, and no output of an abandoned transform is left.
      Replaced inputs are all gone if and only if none of those that a crash made the
      index forget is still there. */
  lemma Settled(r: Run)
    ensures AtRest(After(r)) ==> After(r).staged == {} && After(r).markers == {}
    ensures AtRest(After(r)) ==>
              forall t :: t in After(r).begun && t !in After(r).committed ==> After(r).begun[t].outs !! After(r).index
    ensures AtRest(After(r)) ==>
              ((forall p :: p in After(r).index ==> !After(r).Consumed(p)) <==> After(r).leaked !! After(r).index)
  {
    hide After, State.Consumed;
    AlwaysValid(r);
    var s := After(r);
    if AtRest(s) {
      assert forall p :: p in s.index && s.Consumed(p) ==> p in s.leaked;
      assert forall p :: p in s.leaked ==> s.Consumed(p);
    }
  }

  /** A step in which the index goes down. */
  ghost predicate Crashes(s: State, a: Action)
  {
    a.Crash? || (a.NullInputs? && Enabled(s, a))
  }

  /** What a running transform still has to write, rename or erase. */
  function ToDo(s: State, t: Id): set<Id>
    requires t in s.active && t in s.begun
  {
    match s.active[t]
    case Writing => s.begun[t].outs - s.staged
    case Renaming => s.begun[t].outs * s.staged
    case Erasing => if s.begun[t].keep then {} else s.begun[t].ins * s.index
  }

  /** Its next step. */
  function Onward(s: State, t: Id, p: Id): Action
    requires t in s.active && t in s.begun
  {
    match s.active[t]
    case Writing => if ToDo(s, t) == {} then WriteMarker(t) else WriteOutput(t, p)
    case Renaming => if ToDo(s, t) == {} then RenamesDone(t) else Action.Rename(t, p)
    case Erasing => if ToDo(s, t) == {} then EraseMarker(t) else EraseInput(t, p)
  }

  /** The index directory once the transform is done. */
  function Replaced(s: State, t: Id): set<Id>
    requires t in s.active && t in s.begun
  {
    var x := s.begun[t];
    s.index + (if s.active[t] == Writing then x.outs else x.outs * s.staged) - if x.keep then {} else x.ins
  }

  function StagesLeft(stage: Stage): nat
  {
    match stage
    case Writing => 2
    case Renaming => 1
    case Erasing => 0
  }

  lemma StepOnward(s: State, t: Id, p: Id)
    requires s.Valid() && t in s.active && (ToDo(s, t) == {} || p in ToDo(s, t))
    ensures var s' := Next(s, Onward(s, t, p));
            && s'.begun == s.begun
            && if t !in s'.active then
                 && s.active[t] == Erasing && t in s'.committed && t !in s'.markers && s'.index == Replaced(s, t)
               else
                 && Replaced(s', t) == Replaced(s, t)
                 && (StagesLeft(s'.active[t]) < StagesLeft(s.active[t])
                     || (s'.active[t] == s.active[t] && ToDo(s', t) == ToDo(s, t) - {p} && p in ToDo(s, t)))
  {
    hide State.AllSafe, State.Duplicates, State.OnlyActiveStaged, State.MarkedInput;
    var s', x := Next(s, Onward(s, t, p)), s.begun[t];
    if ToDo(s, t) != {} {
      assert x.outs - (s.staged + {p}) == (x.outs - s.staged) - {p};
      assert x.outs * (s.staged - {p}) == (x.outs * s.staged) - {p};
      assert x.ins * (s.index - {p}) == (x.ins * s.index) - {p};
    } else {
      EmptySets(x.outs, s.staged);
      EmptySets(x.ins, s.index);
    }
  }

  lemma EmptySets(a: set<Id>, b: set<Id>)
    ensures a * b == {} ==> a !! b
    ensures a - b == {} ==> a <= b
  {
    forall p | p in a && p in b ensures p in a * b {
    }
    forall p | p in a && p !in b ensures p in a - b {
    }
  }

  /** A running transform can always go on until it is done: then its marker is gone, and
      in the index directory its outputs have taken the place of its inputs, unless those
      are kept. */
  lemma {:induction false} Completes(r: Run, t: Id) returns (r': Run)
    requires t in After(r).active
    ensures t in After(r).begun && After(r').begun == After(r).begun
    ensures var s := After(r');
            t !in s.active && t !in s.markers && t in s.committed && s.index == Replaced(After(r), t)
    decreases StagesLeft(After(r).active[t]), if t in After(r).begun then |ToDo(After(r), t)| else 0
  {
    hide Next, ToDo, Replaced, Onward;
    AlwaysValid(r);
    var s := After(r);
    assert s.Named();
    var p := 0;
    if ToDo(s, t) != {} {
      p :| p in ToDo(s, t);
    }
    StepOnward(s, t, p);
    r' := Then(r, Onward(s, t, p));
    if t in After(r').active {
      r' := Completes(r', t);
    }
  }

  /** The index forgets an erasure if and only if it goes down while the erasure is
      queued and no marker names the input any more. */
  lemma ForgottenErasure(s: State, a: Action, p: Id)
    ensures p in Next(s, a).leaked <==> p in s.leaked || (Crashes(s, a) && p in s.queued && !s.MarkedInput(p))
  {
    hide State.MarkedInput;
  }

  /** Whenever the index goes down, markers still name all inputs whose erasure is
      queued. */
  ghost predicate NeverForgets(r: Run)
  {
    r.Then? ==>
      && NeverForgets(r.prev)
      && (Crashes(After(r.prev), r.action) ==> forall p :: p in After(r.prev).queued ==> After(r.prev).MarkedInput(p))
  }

  lemma {:induction false} NothingForgotten(r: Run)
    ensures NeverForgets(r) <==> After(r).leaked == {}
  {
    hide State.MarkedInput, Crashes, Next;
    if r.Then? {
      NothingForgotten(r.prev);
      forall p ensures p in After(r).leaked <==>
                 || p in After(r.prev).leaked
                 || (Crashes(After(r.prev), r.action) && p in After(r.prev).queued && !After(r.prev).MarkedInput(p)) {
        ForgottenErasure(After(r.prev), r.action, p);
      }
    }
  }

  /** In a run in which that holds, the inputs of committed transforms are gone at
      rest, and their outputs are there unless a later transform has replaced them:
      no data is there twice. */
  lemma NoDuplicates(r: Run)
    requires NeverForgets(r) && AtRest(After(r))
    ensures forall t :: t in After(r).committed && t in After(r).begun && !After(r).begun[t].keep ==>
              After(r).begun[t].ins !! After(r).index
    ensures forall t, p :: t in After(r).committed && t in After(r).begun && p in After(r).begun[t].outs ==>
              p in After(r).index || ReplacedByOther(After(r), t, p)
  {
    hide After;
    NothingForgotten(r);
    Settled(r);
    InputsOrOutputs(r);
    var s := After(r);
    forall t, p | t in s.committed && t in s.begun && !s.begun[t].keep && p in s.begun[t].ins
      ensures p !in s.index
    {
      assert s.Consumed(p);
    }
  }

  const REPLACE := Transform({1}, {2}, false)

  /** A transform that commits and is interrupted. */
  lemma Interrupted() returns (r: Run)
    ensures After(r) == State(Down, {1}, {2}, {0}, {}, {}, map[], map[0 := REPLACE], {0}, {1, 2}, {1, 2}, {})
  {
    var s1 := State(Running, {1}, {}, {}, {}, {1}, map[], map[], {}, {1}, {1}, {});
    var s2 := s1.(active := map[0 := Writing], begun := map[0 := REPLACE], used := {1, 2});
    var s3 := s2.(staged := {2});
    var s4 := s3.(markers := {0}, committed := {0}, born := {1, 2}, active := map[0 := Renaming]);
    assert Next(START, Ingest(1)) == s1;
    assert Next(s1, Action.Begin(0, REPLACE)) == s2;
    assert Next(s2, WriteOutput(0, 2)) == s3;
    assert Next(s3, WriteMarker(0)) == s4;
    var r1 := Then(First, Ingest(1));
    var r2 := Then(r1, Action.Begin(0, REPLACE));
    var r3 := Then(r2, WriteOutput(0, 2));
    var r4 := Then(r3, WriteMarker(0));
    assert After(r1) == s1 && After(r2) == s2 && After(r3) == s3 && After(r4) == s4;
    r := Then(r4, Crash);
  }

  /** Recovery up to the removal of the marker, with the erasure still queued. */
  lemma Unmarked() returns (r: Run)
    ensures After(r) == State(Cleaning, {1, 2}, {}, {}, {1}, {}, map[], map[0 := REPLACE], {0}, {1, 2}, {1, 2}, {})
  {
    var r5 := Interrupted();
    var s6 := After(r5).(phase := Recovering);
    var s7 := s6.(queued := {1});
    var s8 := s7.(staged := {}, index := {1, 2});
    var s9 := s8.(phase := Cleaning);
    assert Next(After(r5), Restart) == s6;
    assert Next(s6, QueueErasure(0, 1)) == s7;
    assert Next(s7, RecoverOutput(0, 2)) == s8;
    assert Next(s8, StartCleaning) == s9;
    var r6 := Then(r5, Restart);
    var r7 := Then(r6, QueueErasure(0, 1));
    var r8 := Then(r7, RecoverOutput(0, 2));
    var r9 := Then(r8, StartCleaning);
    assert After(r6) == s6 && After(r7) == s7 && After(r8) == s8 && After(r9) == s9;
    r := Then(r9, RemoveMarker(0));
  }

  /** A crash after the markers were removed, but before the queued erasure, leaves
      the input next to the output that has replaced it. */
  lemma ForgottenInput() returns (r: Run)
    ensures var s := After(r);
            && s.phase == Running && s.active == map[] && s.queued == {} && s.index == {1, 2}
            && s.begun == map[0 := REPLACE] && s.committed == {0}
  {
    hide After, Enabled, Next;
    var r10 := Unmarked();
    var s11 := After(r10).(phase := Down, queued := {}, leaked := {1});
    var s12 := s11.(phase := Recovering);
    var s13 := s12.(phase := Cleaning);
    Forget(After(r10), s11, s12, s13);
    var r11 := Step(r10, Crash);
    var r12 := Step(r11, Restart);
    var r13 := Step(r12, StartCleaning);
    r := Step(r13, FinishCleaning);
  }

  lemma Step(r: Run, a: Action) returns (r': Run)
    ensures After(r') == Next(After(r), a)
  {
    hide Next;
    r' := Then(r, a);
  }

  lemma Forget(s10: State, s11: State, s12: State, s13: State)
    requires s10.phase == Cleaning && s10.queued == {1} && s10.leaked == {} && s10.active == map[]
        && s10.persisted == {}
    requires s10.staged == {} && s10.markers == {}
    requires s11 == s10.(phase := Down, queued := {}, leaked := {1})
    requires s12 == s11.(phase := Recovering) && s13 == s12.(phase := Cleaning)
    ensures Next(s10, Crash) == s11 && Next(s11, Restart) == s12 && Next(s12, StartCleaning) == s13
    ensures Next(s13, FinishCleaning) == s13.(phase := Running, persisted := s13.index)
  {
  }

  /** The index is not running, and a transform that keeps its inputs has left its
      marker. Such a marker has no input list, and recovery cannot read it. */
  predicate BlockedBy(s: State, t: Id)
  {
    && (s.phase == Down || s.phase == Recovering) && s.active == map[]
    && t in s.markers && t in s.begun && s.begun[t].keep
  }

  lemma StaysBlocked(s: State, a: Action, t: Id)
    requires BlockedBy(s, t)
    ensures BlockedBy(Next(s, a), t)
  {
    hide State.MarkedInput;
  }

  ghost function Extended(r: Run, actions: seq<Action>): Run
    decreases |actions|
  {
    if actions == [] then r else Extended(Then(r, actions[0]), actions[1..])
  }

  /** Then the index never runs again, whatever happens. */
  lemma {:induction false} KeepingMarkerBlocks(r: Run, actions: seq<Action>, t: Id)
    requires BlockedBy(After(r), t)
    ensures After(Extended(r, actions)).phase == Down || After(Extended(r, actions)).phase == Recovering
    decreases |actions|
  {
    hide Next;
    if actions != [] {
      StaysBlocked(After(r), actions[0], t);
      KeepingMarkerBlocks(Then(r, actions[0]), actions[1..], t);
    }
  }

  /** A crash blocks the index if and only if such a marker is written and not yet
      erased. */
  lemma CrashBlocks(r: Run, t: Id)
    ensures BlockedBy(After(Then(r, Crash)), t)
        <==> t in After(r).markers && t in After(r).begun && After(r).begun[t].keep
  {
  }

  const COPY := Transform({1}, {2}, true)

  /** This happens. */
  lemma KeepingMarkerLeft() returns (r: Run)
    ensures r == Then(Then(Then(Then(Then(First, Ingest(1)), Action.Begin(0, COPY)), WriteOutput(0, 2)),
        WriteMarker(0)), Crash)
    ensures BlockedBy(After(r), 0)
  {
    var s1 := State(Running, {1}, {}, {}, {}, {1}, map[], map[], {}, {1}, {1}, {});
    var s2 := s1.(active := map[0 := Writing], begun := map[0 := COPY], used := {1, 2});
    var s3 := s2.(staged := {2});
    var r1 := Then(First, Ingest(1));
    var r2 := Then(r1, Action.Begin(0, COPY));
    var r3 := Then(r2, WriteOutput(0, 2));
    assert After(r1) == s1;
    assert After(r2) == s2;
    assert After(r3) == s3;
    r := Then(Then(r3, WriteMarker(0)), Crash);
    CrashBlocks(Then(r3, WriteMarker(0)), 0);
  }

  // ----- Markers and recovery as the index does it

  /** The list of inputs is absent if they are to be kept. */
  datatype Marker = Marker(ins: Option<seq<Id>>, outs: seq<Id>)

  function CreateMarker(ins: seq<Id>, outs: seq<Id>, keep: bool): Marker
  {
    Marker(if keep then None else Some(ins), outs)
  }

  /** The marker is that of the transform. */
  predicate MarkerOf(m: Marker, x: Transform)
  {
    && (set p | p in m.outs) == x.outs
    && (m.ins.None? <==> x.keep)
    && (m.ins.Some? ==> (set p | p in m.ins.value) == x.ins)
  }

  /** A marker names the outputs, and the inputs unless these are kept; then the list
      is absent, not empty. */
  lemma MarkerContents(ins: seq<Id>, outs: seq<Id>, keep: bool, p: Id)
    ensures MarkerOf(CreateMarker(ins, outs, keep), Transform((set q | q in ins), (set q | q in outs), keep))
    ensures var m := map[0 := CreateMarker(ins, outs, keep)];
            && (NamesInput(m, {0}, p) <==> !keep && p in ins)
            && (NamesOutput(m, {0}, p) <==> p in outs)
            && (m[0].ins.None? <==> keep)
  {
    var m := map[0 := CreateMarker(ins, outs, keep)];
    assert 0 in m;
  }

  /** Some marker of a set of them names the partition as an input, or as an output. */
  predicate NamesInput(markers: map<Id, Marker>, ts: set<Id>, p: Id)
  {
    exists t :: t in ts && t in markers && markers[t].ins.Some? && p in markers[t].ins.value
  }

  predicate NamesOutput(markers: map<Id, Marker>, ts: set<Id>, p: Id)
  {
    exists t :: t in ts && t in markers && p in markers[t].outs
  }

  /** The disk and the memory of the index are those of a state. */
  ghost predicate Mirrors(s: State, index: set<Id>, staged: set<Id>, markers: map<Id, Marker>, erasures: set<Id>,
                          persisted: set<Id>)
  {
    && s.index == index && s.staged == staged && s.markers == markers.Keys && s.queued == erasures
       && s.persisted == persisted
    && forall t :: t in markers ==> t in s.begun && MarkerOf(markers[t], s.begun[t])
  }

  class IndexDirectory {
    var index: set<Id>
    var staged: set<Id>
    var markers: map<Id, Marker>
    var erasures: set<Id>
    var persisted: set<Id>
    var inTransformation: set<Id>
    /** The run that has led here. */
    ghost var run: Run

    ghost predicate Valid(phase: Phase)
      reads this
    {
      After(run).phase == phase && Mirrors(After(run), index, staged, markers, erasures, persisted)
    }

    /** The index starts on the disk that a run has left. */
    constructor (ghost r: Run, index: set<Id>, staged: set<Id>, markers: map<Id, Marker>)
      requires After(r).phase == Recovering && Mirrors(After(r), index, staged, markers, {}, {})
      ensures Valid(Recovering) && run == r
      ensures this.index == index && this.staged == staged && this.markers == markers && erasures == {}
          && inTransformation == {}
    {
      this.index, this.staged, this.markers := index, staged, markers;
      erasures, persisted, inTransformation := {}, {}, {};
      run := r;
    }

    /** The partitions of a request that will be transformed: those that are known and
        not in another transform. */
    method Select(selected: seq<Id>) returns (corrected: seq<Id>)
      modifies this`inTransformation
      ensures forall p :: p in corrected <==> p in selected && p in persisted && p !in old(inTransformation)
      ensures forall i, j :: 0 <= i < j < |corrected| ==> corrected[i] != corrected[j]
      ensures inTransformation == old(inTransformation) + set p | p in corrected
    {
      corrected := [];
      for i := 0 to |selected|
        invariant forall p :: p in corrected <==> p in selected[..i] && p in persisted && p !in old(inTransformation)
        invariant forall j, k :: 0 <= j < k < |corrected| ==> corrected[j] != corrected[k]
        invariant inTransformation == old(inTransformation) + set p | p in corrected
      {
        var p := selected[i];
        if p in persisted && p !in inTransformation {
          inTransformation := inTransformation + {p};
          corrected := corrected + [p];
        }
      }
      assert selected[..|selected|] == selected;
    }

    /** Queues the inputs of a marker that exist for erasure. */
    method QueueInputs(t: Id, ins: seq<Id>)
      requires Valid(Recovering) && t in markers && markers[t].ins == Some(ins)
      modifies this`erasures, this`run
      ensures Valid(Recovering)
      ensures forall p :: p in erasures <==> p in old(erasures) || (p in ins && p in index)
    {
      hide After;
      for i := 0 to |ins|
        invariant Valid(Recovering)
        invariant forall p :: p in erasures <==> p in old(erasures) || (p in ins[..i] && p in index)
      {
        if ins[i] in index {
          QueueStep(run, t, ins[i]);
          erasures := erasures + {ins[i]};
          run := Then(run, QueueErasure(t, ins[i]));
        }
      }
      assert ins[..|ins|] == ins;
    }

    /** Moves outputs of a marker to the index directory; those that are not staged any
        more have been moved before. */
    method MoveOutputs(t: Id, outs: seq<Id>)
      requires Valid(Recovering) && t in markers && markers[t].outs == outs && markers[t].ins.Some?
      modifies this`index, this`staged, this`run
      ensures Valid(Recovering)
      ensures forall p :: p in index <==> p in old(index) || (p in outs && p in old(staged))
      ensures forall p :: p in staged <==> p in old(staged) && p !in outs
    {
      hide After;
      for i := 0 to |outs|
        invariant Valid(Recovering)
        invariant forall p :: p in index <==> p in old(index) || (p in outs[..i] && p in old(staged))
        invariant forall p :: p in staged <==> p in old(staged) && p !in outs[..i]
      {
        if outs[i] in staged {
          RecoverStep(run, t, outs[i]);
          staged := staged - {outs[i]};
          index := index + {outs[i]};
          run := Then(run, RecoverOutput(t, outs[i]));
        }
      }
      assert outs[..|outs|] == outs;
    }

    /** Finishes the transforms whose markers are left. It gets through if and only if
        each marker has a list of inputs. Either way it has taken the steps of the
        recovery. */
    method LoadFromDisk() returns (ok: bool)
      requires Valid(Recovering)
      modifies this
      ensures if ok then Valid(Running) else After(run).phase == Down
      ensures ok <==> forall t :: t in old(markers) ==> old(markers)[t].ins.Some?
      ensures ok ==> staged == {} && markers == map[] && persisted == index
      ensures ok ==> forall p ::
        p in index <==>
          p in old(index) || (p in old(staged) && NamesOutput(old(markers), old(markers).Keys, p))
      ensures ok ==> forall p ::
        p in erasures <==>
          p in old(erasures) || (p in old(index) && NamesInput(old(markers), old(markers).Keys, p))
    {
      hide NamesInput, NamesOutput, After;
      ghost var all := markers;
      var todo := markers.Keys;
      NoneNamed(all);
      InputsNotStaged(run, all);
      while todo != {}
        invariant markers == all && todo <= all.Keys && Valid(Recovering)
        invariant forall t :: t in all && t !in todo ==> all[t].ins.Some?
        invariant forall p ::
          p in index <==>
            p in old(index) || (p in old(staged) && NamesOutput(all, all.Keys - todo, p))
        invariant forall p :: p in staged <==> p in old(staged) && !NamesOutput(all, all.Keys - todo, p)
        invariant forall p ::
          p in erasures <==>
            p in old(erasures) || (p in old(index) && NamesInput(all, all.Keys - todo, p))
        decreases |todo|
      {
        var t :| t in todo;
        var marker := markers[t];
        if marker.ins.None? {
          FailedStep(run, t);
          run := Then(run, NullInputs(t));
          return false;
        }
        QueueInputs(t, marker.ins.value);
        MoveOutputs(t, marker.outs);
        OneMoreNamed(all, todo, t);
        todo := todo - {t};
      }
      assert all.Keys - {} == all.Keys;
      run := CleanUp(run, all);
      staged, markers := {}, map[];
      persisted := index;
      return true;
    }

    /** The queued erasures finish. */
    method FinishErasures()
      requires Mirrors(After(run), index, staged, markers, erasures, After(run).persisted) && After(run).phase != Down
      modifies this`index, this`erasures, this`run
      ensures Mirrors(After(run), index, staged, markers, erasures, old(After(run).persisted))
          && After(run).phase == old(After(run).phase)
      ensures index == old(index) - old(erasures) && erasures == {}
    {
      hide After;
      while erasures != {}
        invariant Mirrors(After(run), index, staged, markers, erasures, old(After(run).persisted))
            && After(run).phase == old(After(run).phase)
        invariant index - erasures == old(index) - old(erasures) && erasures <= old(erasures)
            && index !! (old(erasures) - erasures)
        decreases |erasures|
      {
        var p :| p in erasures;
        EraseStep(run, p);
        index, erasures := index - {p}, erasures - {p};
        run := Then(run, EraseQueued(p));
      }
    }
  }

  lemma QueueStep(r: Run, t: Id, p: Id)
    requires After(r).Redoes(t) && !After(r).begun[t].keep && p in After(r).begun[t].ins && p in After(r).index
    ensures After(Then(r, QueueErasure(t, p))) == After(r).(queued := After(r).queued + {p})
  {
  }

  lemma RecoverStep(r: Run, t: Id, p: Id)
    requires After(r).Redoes(t) && !After(r).begun[t].keep && p in After(r).begun[t].outs && p in After(r).staged
    ensures After(Then(r, RecoverOutput(t, p)))
        == After(r).(staged := After(r).staged - {p}, index := After(r).index + {p})
  {
  }

  lemma FailedStep(r: Run, t: Id)
    requires After(r).Redoes(t) && After(r).begun[t].keep
    ensures After(Then(r, NullInputs(t))) == Crashed(After(r))
  {
  }

  lemma EraseStep(r: Run, p: Id)
    requires After(r).phase != Down && p in After(r).queued
    ensures After(Then(r, EraseQueued(p))) == After(r).(index := After(r).index - {p}, queued := After(r).queued - {p})
  {
  }

  /** What a marker names as an input is not staged. */
  lemma InputsNotStaged(r: Run, markers: map<Id, Marker>)
    requires forall t :: t in markers ==> t in After(r).begun && MarkerOf(markers[t], After(r).begun[t])
    ensures forall p :: NamesInput(markers, markers.Keys, p) ==> p !in After(r).staged
  {
    hide After;
    AlwaysValid(r);
    forall p | NamesInput(markers, markers.Keys, p) ensures p !in After(r).staged {
      var t :| t in markers && markers[t].ins.Some? && p in markers[t].ins.value;
      assert p in After(r).begun[t].ins;
    }
  }

  /** Removing what is left in the staging directory, and the markers. */
  lemma CleanUp(r: Run, markers: map<Id, Marker>) returns (r': Run)
    requires After(r).phase == Recovering && After(r).markers == markers.Keys
    requires forall t :: t in markers ==>
        t in After(r).begun && MarkerOf(markers[t], After(r).begun[t]) && markers[t].ins.Some?
    requires forall p :: p in After(r).staged ==> !NamesOutput(markers, markers.Keys, p)
    requires forall p :: p in After(r).index && NamesInput(markers, markers.Keys, p) ==> p in After(r).queued
    ensures After(r') == After(r).(phase := Running, staged := {}, markers := {}, persisted := After(r).index)
  {
    hide After;
    CleaningStep(r, markers);
    r' := Removed(Then(r, StartCleaning));
    FinishStep(r');
    r' := Then(r', FinishCleaning);
  }

  lemma CleaningStep(r: Run, markers: map<Id, Marker>)
    requires After(r).phase == Recovering && After(r).markers == markers.Keys
    requires forall t :: t in markers ==>
        t in After(r).begun && MarkerOf(markers[t], After(r).begun[t]) && markers[t].ins.Some?
    requires forall p :: p in After(r).staged ==> !NamesOutput(markers, markers.Keys, p)
    requires forall p :: p in After(r).index && NamesInput(markers, markers.Keys, p) ==> p in After(r).queued
    ensures After(Then(r, StartCleaning)) == After(r).(phase := Cleaning)
  {
    var s := After(r);
    forall t | t in s.markers && t in s.begun ensures !s.begun[t].keep && s.begun[t].outs !! s.staged {
      forall p | p in s.begun[t].outs ensures p !in s.staged {
        assert p in markers[t].outs && NamesOutput(markers, markers.Keys, p);
      }
    }
    forall p | p in s.index && s.MarkedInput(p) ensures p in s.queued {
      var t :| t in s.markers && t in s.begun && !s.begun[t].keep && p in s.begun[t].ins;
      assert p in markers[t].ins.value && NamesInput(markers, markers.Keys, p);
    }
  }

  lemma FinishStep(r: Run)
    requires After(r).phase == Cleaning && After(r).staged == {} && After(r).markers == {}
    ensures After(Then(r, FinishCleaning)) == After(r).(phase := Running, persisted := After(r).index)
  {
  }

  lemma {:induction false} Removed(r: Run) returns (r': Run)
    requires After(r).phase == Cleaning
    ensures After(r') == After(r).(staged := {}, markers := {})
    decreases |After(r).staged| + |After(r).markers|
  {
    var s := After(r);
    if s.staged != {} {
      var p :| p in s.staged;
      assert Next(s, RemoveStaged(p)) == s.(staged := s.staged - {p});
      r' := Removed(Then(r, RemoveStaged(p)));
    } else if s.markers != {} {
      var t :| t in s.markers;
      assert Next(s, RemoveMarker(t)) == s.(markers := s.markers - {t});
      r' := Removed(Then(r, RemoveMarker(t)));
    } else {
      r' := r;
    }
  }

  lemma NoneNamed(all: map<Id, Marker>)
    ensures forall p :: !NamesInput(all, all.Keys - all.Keys, p) && !NamesOutput(all, all.Keys - all.Keys, p)
  {
  }

  lemma OneMoreNamed(all: map<Id, Marker>, todo: set<Id>, t: Id)
    requires t in todo && todo <= all.Keys && all[t].ins.Some?
    ensures forall p ::
      NamesInput(all, all.Keys - (todo - {t}), p) <==>
        NamesInput(all, all.Keys - todo, p) || p in all[t].ins.value
    ensures forall p ::
      NamesOutput(all, all.Keys - (todo - {t}), p) <==>
        NamesOutput(all, all.Keys - todo, p) || p in all[t].outs
    ensures forall p :: p in all[t].ins.value ==> NamesInput(all, all.Keys, p)
  {
    assert all.Keys - (todo - {t}) == (all.Keys - todo) + {t};
  }

  /** Recovery with its erasures replaces the inputs of every marked transform by the
      outputs, and drops the outputs of all others. */
  method Recover(disk: IndexDirectory) returns (ok: bool)
    requires disk.Valid(Recovering) && disk.erasures == {}
    modifies disk
    ensures ok <==> forall t :: t in old(disk.markers) ==> old(disk.markers)[t].ins.Some?
    ensures After(disk.run).phase == if ok then Running else Down
    ensures ok ==> disk.staged == {} && disk.markers == map[] && disk.erasures == {}
    ensures ok ==> After(disk.run).staged == {} && After(disk.run).queued == {} && After(disk.run).index == disk.index
    ensures ok ==> forall p :: p in disk.index <==>
              (p in old(disk.index) && !NamesInput(old(disk.markers), old(disk.markers).Keys, p))
              || (p in old(disk.staged) && NamesOutput(old(disk.markers), old(disk.markers).Keys, p))
  {
    hide NamesInput, NamesOutput, After;
    InputsNotStaged(disk.run, disk.markers);
    ok := disk.LoadFromDisk();
    if ok {
      disk.FinishErasures();
    }
  }
}
