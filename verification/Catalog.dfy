/** Pruning partitions with lossy summaries of their events. */
module Catalog {
  import opened Expressions

  // ----- Partitions

  /** The answer to a lookup is that no event matches, that some may match, or
      unknown. */
  datatype Synopsis = Synopsis(lookup: (RelOp, Data) -> Option<bool>) {
    predicate Selects(op: RelOp, d: Data) {
      lookup(op, d) != Some(false)
    }
  }

  type TypeId = nat

  /** A field of a schema, its type without metadata, and its own synopsis if it
      has one. */
  datatype FieldEntry = FieldEntry(schemaName: string, fieldName: string, typeId: TypeId, synopsis: Option<Synopsis>)

  datatype Partition = Partition(id: nat, fields: seq<FieldEntry>, typeSynopses: map<TypeId, Option<Synopsis>>,
                                 minImportTime: int, maxImportTime: int)

  /** What the catalog calls: operator compatibility and congruence of types, the
      synopsis over an import time range, and properties of the schema. */
  datatype Context = Context(
    lib: Library,
    compatible: (TypeId, RelOp, Data) -> bool,
    typeMatches: (string, TypeId, RelOp, Data) -> bool,
    importTimes: (int, int) -> Synopsis,
    schemaName: string,
    fingerprint: string,
    internal: bool)

  /** Partitions are kept in the order of their ids. */
  predicate Ordered(parts: seq<Partition>)
  {
    forall i, j :: 0 <= i < j < |parts| ==> parts[i].id < parts[j].id
  }

  predicate Sorted(ids: seq<nat>)
  {
    forall i, j :: 0 <= i < j < |ids| ==> ids[i] < ids[j]
  }

  // ----- Field names

  /** A key names a field if it ends the qualified name of the field and starts at
      its beginning or behind a dot. */
  predicate Names(key: string, schemaName: string, fieldName: string)
  {
    var name := schemaName + "." + fieldName;
    |key| <= |name| && name[|name| - |key|..] == key
    && (|key| == |name| || name[|name| - |key| - 1] == '.')
  }

  /** Compares the key with the field name first and with the schema name only if
      the key is longer. */
  predicate MatchName(key: string, schemaName: string, fieldName: string)
  {
    if |fieldName| >= |key| then
      var pos := |fieldName| - |key|;
      fieldName[pos..] == key && (pos == 0 || fieldName[pos - 1] == '.')
    else if |key| > |schemaName| + 1 + |fieldName| then
      false
    else
      var pos := |key| - |fieldName|;
      && key[pos..] == fieldName
      && key[pos - 1] == '.'
      && var fpos := |schemaName| - (pos - 1);
         key[..pos - 1] == schemaName[fpos..] && (fpos == 0 || schemaName[fpos - 1] == '.')
  }

  lemma MatchesNames(key: string, schemaName: string, fieldName: string)
    ensures MatchName(key, schemaName, fieldName) <==> Names(key, schemaName, fieldName)
  {
    var name := schemaName + "." + fieldName;
    if |key| <= |fieldName| {
      assert name[|name| - |key|..] == fieldName[|fieldName| - |key|..];
    } else if |key| <= |name| {
      var pos := |key| - |fieldName|;
      var fpos := |schemaName| - (pos - 1);
      assert name[|name| - |key|..] == schemaName[fpos..] + "." + fieldName;
      assert key == key[..pos - 1] + [key[pos - 1]] + key[pos..];
    }
  }

  predicate FieldMatches(ctx: Context, l: Operand, op: RelOp, d: Data, field: FieldEntry)
  {
    match l
    case Field(name) => MatchName(name, field.schemaName, field.fieldName) && ctx.compatible(field.typeId, op, d)
    case TypeName(name) => ctx.typeMatches(name, field.typeId, op, d)
    case _ => false
  }

  // ----- Which partitions a lookup has to return

  predicate FieldSelects(p: Partition, i: nat, op: RelOp, d: Data)
    requires i < |p.fields|
  {
    var field := p.fields[i];
    if field.synopsis.Some? then
      field.synopsis.value.Selects(op, d)
    else if field.typeId in p.typeSynopses && p.typeSynopses[field.typeId].Some? then
      p.typeSynopses[field.typeId].value.Selects(op, d)
    else true
  }

  predicate PredicateSelects(ctx: Context, p: Partition, l: Operand, op: RelOp, r: Operand)
  {
    if !r.Value? then true
    else match l {
      case Meta(Schema) =>
        exists i :: 0 <= i < |p.fields| && Evaluate(ctx.lib, Text(p.fields[i].schemaName), op, r.data)
      case Meta(SchemaId) => Evaluate(ctx.lib, Text(ctx.fingerprint), op, r.data)
      case Meta(ImportTime) => ctx.importTimes(p.minImportTime, p.maxImportTime).Selects(op, r.data)
      case Meta(Internal) => Evaluate(ctx.lib, Bool(ctx.internal), op, r.data)
      case Field(_) =>
        exists i ::
          0 <= i < |p.fields| && FieldMatches(ctx, l, op, r.data, p.fields[i]) && FieldSelects(p, i, op, r.data)
      case TypeName(_) =>
        exists i ::
          0 <= i < |p.fields| && FieldMatches(ctx, l, op, r.data, p.fields[i]) && FieldSelects(p, i, op, r.data)
      case _ => true
    }
  }

  predicate Selects(ctx: Context, p: Partition, e: Expr)
  {
    match e
    case NoExpr => true
    case Conjunction(es) => SelectsAll(ctx, p, es)
    case Disjunction(es) => SelectsAny(ctx, p, es)
    case Negation(_) => true
    case Predicate(l, op, r) => PredicateSelects(ctx, p, l, op, r)
  }

  predicate SelectsAll(ctx: Context, p: Partition, es: Exprs)
  {
    es.Cons? ==> Selects(ctx, p, es.head) && SelectsAll(ctx, p, es.tail)
  }

  predicate SelectsAny(ctx: Context, p: Partition, es: Exprs)
  {
    es.Cons? && (Selects(ctx, p, es.head) || SelectsAny(ctx, p, es.tail))
  }

  // ----- No false negatives

  /** An event has one value per field of its schema. Other is the truth of
      predicates that the catalog does not look at. */
  datatype Event = Event(values: seq<Data>, importTime: int, other: (Operand, RelOp, Operand) -> bool)

  /** Whether an extractor means a field. */
  predicate Extracts(ctx: Context, l: Operand, op: RelOp, d: Data, field: FieldEntry)
  {
    match l
    case Field(name) => Names(name, field.schemaName, field.fieldName) && ctx.compatible(field.typeId, op, d)
    case TypeName(name) => ctx.typeMatches(name, field.typeId, op, d)
    case _ => false
  }

  lemma MatchesExtracts(ctx: Context, l: Operand, op: RelOp, d: Data, field: FieldEntry)
    ensures FieldMatches(ctx, l, op, d, field) <==> Extracts(ctx, l, op, d, field)
  {
    if l.Field? {
      MatchesNames(l.name, field.schemaName, field.fieldName);
    }
  }

  /** A null value satisfies no test but the one for null itself, which is what the
      engine does with null cells. */
  predicate ValueHolds(ctx: Context, v: Data, op: RelOp, d: Data)
  {
    if d.Null? then (op == Equal && v.Null?) || (op == NotEqual && !v.Null?)
    else !v.Null? && Evaluate(ctx.lib, v, op, d)
  }

  predicate ValueMatches(ctx: Context, p: Partition, ev: Event, l: Operand, op: RelOp, d: Data, i: nat)
    requires |ev.values| == |p.fields| && i < |p.fields|
  {
    Extracts(ctx, l, op, d, p.fields[i]) && ValueHolds(ctx, ev.values[i], op, d)
  }

  ghost predicate Matches(ctx: Context, p: Partition, ev: Event, l: Operand, op: RelOp, r: Operand)
    requires |ev.values| == |p.fields|
  {
    if !r.Value? then ev.other(l, op, r)
    else match l {
      case Meta(Schema) => Evaluate(ctx.lib, Text(ctx.schemaName), op, r.data)
      case Meta(SchemaId) => Evaluate(ctx.lib, Text(ctx.fingerprint), op, r.data)
      case Meta(ImportTime) => Evaluate(ctx.lib, Number(ev.importTime), op, r.data)
      case Meta(Internal) => Evaluate(ctx.lib, Bool(ctx.internal), op, r.data)
      case Field(_) => exists i :: 0 <= i < |p.fields| && ValueMatches(ctx, p, ev, l, op, r.data, i)
      case TypeName(_) => exists i :: 0 <= i < |p.fields| && ValueMatches(ctx, p, ev, l, op, r.data, i)
      case _ => ev.other(l, op, r)
    }
  }

  ghost predicate EventHolds(ctx: Context, p: Partition, ev: Event, e: Expr)
    requires |ev.values| == |p.fields|
  {
    match e
    case NoExpr => false
    case Conjunction(es) => EventHoldsAll(ctx, p, ev, es)
    case Disjunction(es) => EventHoldsAny(ctx, p, ev, es)
    case Negation(f) => !EventHolds(ctx, p, ev, f)
    case Predicate(l, op, r) => Matches(ctx, p, ev, l, op, r)
  }

  ghost predicate EventHoldsAll(ctx: Context, p: Partition, ev: Event, es: Exprs)
    requires |ev.values| == |p.fields|
  {
    es.Cons? ==> EventHolds(ctx, p, ev, es.head) && EventHoldsAll(ctx, p, ev, es.tail)
  }

  ghost predicate EventHoldsAny(ctx: Context, p: Partition, ev: Event, es: Exprs)
    requires |ev.values| == |p.fields|
  {
    es.Cons? && (EventHolds(ctx, p, ev, es.head) || EventHoldsAny(ctx, p, ev, es.tail))
  }

  /** What is known of a partition covers an event: it has the schema's name, the
      time range contains its import time, and no synopsis rules out a value. */
  ghost predicate Covers(ctx: Context, p: Partition, ev: Event)
  {
    && |ev.values| == |p.fields|
    && p.minImportTime <= ev.importTime <= p.maxImportTime
    && (forall i :: 0 <= i < |p.fields| ==> p.fields[i].schemaName == ctx.schemaName)
    && (forall i, op, d :: 0 <= i < |p.fields| && ValueHolds(ctx, ev.values[i], op, d) ==> NotRuledOut(p, i, op, d))
  }

  predicate NotRuledOut(p: Partition, i: nat, op: RelOp, d: Data)
    requires i < |p.fields|
  {
    var field := p.fields[i];
    && (field.synopsis.Some? ==> field.synopsis.value.Selects(op, d))
    && (field.typeId in p.typeSynopses && p.typeSynopses[field.typeId].Some? ==>
       p.typeSynopses[field.typeId].value.Selects(op, d))
  }

  /** The synopsis of a range of import times is sound for every time in it. */
  ghost predicate SoundTimes(ctx: Context)
  {
    forall lo, hi, t, op, d :: lo <= t <= hi && Evaluate(ctx.lib, Number(t), op, d) ==>
      ctx.importTimes(lo, hi).Selects(op, d)
  }

  /** A schema test outside negations; below them the catalog does not look. */
  predicate TestsSchema(e: Expr)
  {
    match e
    case NoExpr => false
    case Conjunction(es) => AnyTestsSchema(es)
    case Disjunction(es) => AnyTestsSchema(es)
    case Negation(_) => false
    case Predicate(l, _, r) => l == Meta(Schema) && r.Value?
  }

  predicate AnyTestsSchema(es: Exprs)
  {
    es.Cons? && (TestsSchema(es.head) || AnyTestsSchema(es.tail))
  }

  /** A partition with a matching event is selected, unless it has no fields and the
      expression tests the schema. */
  lemma {:induction false} NoFalseNegatives(ctx: Context, p: Partition, ev: Event, e: Expr)
    requires SoundTimes(ctx) && Covers(ctx, p, ev) && (p.fields != [] || !TestsSchema(e)) && EventHolds(ctx, p, ev, e)
    ensures Selects(ctx, p, e)
  {
    hide SoundTimes, Covers, Matches, PredicateSelects;
    match e
    case Conjunction(es) => NoFalseNegativesAll(ctx, p, ev, es);
    case Disjunction(es) => NoFalseNegativesAny(ctx, p, ev, es);
    case Negation(_) =>
    case Predicate(l, op, r) => NoFalseNegativesLeaf(ctx, p, ev, l, op, r);
  }

  lemma {:induction false} NoFalseNegativesAll(ctx: Context, p: Partition, ev: Event, es: Exprs)
    requires SoundTimes(ctx) && Covers(ctx, p, ev) && (p.fields != [] || !AnyTestsSchema(es))
        && EventHoldsAll(ctx, p, ev, es)
    ensures SelectsAll(ctx, p, es)
  {
    hide SoundTimes, Covers, Matches, PredicateSelects;
    if es.Cons? {
      NoFalseNegatives(ctx, p, ev, es.head);
      NoFalseNegativesAll(ctx, p, ev, es.tail);
    }
  }

  lemma {:induction false} NoFalseNegativesAny(ctx: Context, p: Partition, ev: Event, es: Exprs)
    requires SoundTimes(ctx) && Covers(ctx, p, ev) && (p.fields != [] || !AnyTestsSchema(es))
        && EventHoldsAny(ctx, p, ev, es)
    ensures SelectsAny(ctx, p, es)
  {
    hide SoundTimes, Evaluate, Matches, PredicateSelects;
    if EventHolds(ctx, p, ev, es.head) {
      NoFalseNegatives(ctx, p, ev, es.head);
    } else {
      NoFalseNegativesAny(ctx, p, ev, es.tail);
    }
  }

  lemma NoFalseNegativesLeaf(ctx: Context, p: Partition, ev: Event, l: Operand, op: RelOp, r: Operand)
    requires SoundTimes(ctx) && Covers(ctx, p, ev) && (p.fields != [] || !TestsSchema(Predicate(l, op, r)))
    requires Matches(ctx, p, ev, l, op, r)
    ensures PredicateSelects(ctx, p, l, op, r)
  {
    hide Evaluate, MatchName, Names, Extracts, FieldMatches, ValueHolds;
    if r.Value? && (l.Field? || l.TypeName?) {
      var i :| 0 <= i < |p.fields| && ValueMatches(ctx, p, ev, l, op, r.data, i);
      MatchesExtracts(ctx, l, op, r.data, p.fields[i]);
      assert NotRuledOut(p, i, op, r.data);
      assert FieldMatches(ctx, l, op, r.data, p.fields[i]) && FieldSelects(p, i, op, r.data);
    } else if r.Value? && l == Meta(Schema) {
      assert p.fields[0].schemaName == ctx.schemaName;
    }
  }

  /** A test of the schema name selects a partition of that schema if and only if
      the name passes and the schema has a field; so events without fields are
      lost. */
  lemma SchemaTest(ctx: Context, p: Partition, ev: Event, op: RelOp, d: Data)
    requires Covers(ctx, p, ev)
    ensures Selects(ctx, p, Predicate(Meta(Schema), op, Value(d)))
       <==> EventHolds(ctx, p, ev, Predicate(Meta(Schema), op, Value(d))) && p.fields != []
  {
    hide Evaluate;
    if p.fields != [] {
      assert p.fields[0].schemaName == ctx.schemaName;
    }
  }

  /** Such an event: the query asks for the very schema of the partition. */
  lemma SchemaTestLoses(ctx: Context, time: int) returns (p: Partition, ev: Event, e: Expr)
    ensures Covers(ctx, p, ev) && EventHolds(ctx, p, ev, e) && !Selects(ctx, p, e)
  {
    p := Partition(0, [], map[], time, time);
    ev := Event([], time, (l, op, r) => false);
    e := Predicate(Meta(Schema), Equal, Value(Text(ctx.schemaName)));
  }

  // ----- Exactly what is pruned

  /** The answer that no event matches. */
  predicate Excludes(synopsis: Option<Synopsis>, op: RelOp, d: Data)
  {
    synopsis.Some? && synopsis.value.lookup(op, d) == Option.Some(false)
  }

  /** A field is ruled out by its own synopsis, or in its absence by that of its type. */
  predicate FieldRuledOut(p: Partition, field: FieldEntry, op: RelOp, d: Data)
  {
    if field.synopsis.Some? then Excludes(field.synopsis, op, d)
    else field.typeId in p.typeSynopses && Excludes(p.typeSynopses[field.typeId], op, d)
  }

  /** Every field that the extractor means is ruled out, or what is known of the whole
      partition fails the test. */
  ghost predicate RulesOutLeaf(ctx: Context, p: Partition, l: Operand, op: RelOp, d: Data)
  {
    match l
    case Meta(Schema) => forall field :: field in p.fields ==> !Evaluate(ctx.lib, Text(field.schemaName), op, d)
    case Meta(SchemaId) => !Evaluate(ctx.lib, Text(ctx.fingerprint), op, d)
    case Meta(ImportTime) => Excludes(Option.Some(ctx.importTimes(p.minImportTime, p.maxImportTime)), op, d)
    case Meta(Internal) => !Evaluate(ctx.lib, Bool(ctx.internal), op, d)
    case Value(_) => false
    case Column(_) => false
    case _ => forall field :: field in p.fields && Extracts(ctx, l, op, d, field) ==> FieldRuledOut(p, field, op, d)
  }

  /** A conjunction is ruled out by one operand, a disjunction by all of them, and a
      negation never. */
  ghost predicate RulesOut(ctx: Context, p: Partition, e: Expr)
  {
    match e
    case NoExpr => false
    case Conjunction(es) => RulesOutSome(ctx, p, es)
    case Disjunction(es) => RulesOutEach(ctx, p, es)
    case Negation(_) => false
    case Predicate(l, op, r) => r.Value? && RulesOutLeaf(ctx, p, l, op, r.data)
  }

  ghost predicate RulesOutSome(ctx: Context, p: Partition, es: Exprs)
  {
    es.Cons? && (RulesOut(ctx, p, es.head) || RulesOutSome(ctx, p, es.tail))
  }

  ghost predicate RulesOutEach(ctx: Context, p: Partition, es: Exprs)
  {
    es.Cons? ==> RulesOut(ctx, p, es.head) && RulesOutEach(ctx, p, es.tail)
  }

  /** A partition is selected if and only if it is not ruled out. */
  lemma {:induction false} PrunedExactly(ctx: Context, p: Partition, e: Expr)
    ensures Selects(ctx, p, e) <==> !RulesOut(ctx, p, e)
  {
    hide PredicateSelects, RulesOutLeaf;
    match e
    case NoExpr =>
    case Conjunction(es) => PrunedEach(ctx, p, es);
    case Disjunction(es) => PrunedEach(ctx, p, es);
    case Negation(_) =>
    case Predicate(l, op, r) => PrunedLeaf(ctx, p, l, op, r);
  }

  lemma {:induction false} PrunedEach(ctx: Context, p: Partition, es: Exprs)
    ensures SelectsAll(ctx, p, es) <==> !RulesOutSome(ctx, p, es)
    ensures SelectsAny(ctx, p, es) <==> !RulesOutEach(ctx, p, es)
  {
    if es.Cons? {
      PrunedExactly(ctx, p, es.head);
      PrunedEach(ctx, p, es.tail);
    }
  }

  lemma PrunedLeaf(ctx: Context, p: Partition, l: Operand, op: RelOp, r: Operand)
    ensures PredicateSelects(ctx, p, l, op, r) <==> !(r.Value? && RulesOutLeaf(ctx, p, l, op, r.data))
  {
    hide Evaluate, FieldMatches, Extracts, FieldSelects, FieldRuledOut;
    if r.Value? && (l.Field? || l.TypeName?) {
      forall i | 0 <= i < |p.fields|
        ensures FieldMatches(ctx, l, op, r.data, p.fields[i]) <==> Extracts(ctx, l, op, r.data, p.fields[i])
        ensures FieldSelects(p, i, op, r.data) <==> !FieldRuledOut(p, p.fields[i], op, r.data)
      {
        MatchesExtracts(ctx, l, op, r.data, p.fields[i]);
        FieldPruned(p, i, op, r.data);
      }
    }
  }

  lemma FieldPruned(p: Partition, i: nat, op: RelOp, d: Data)
    requires i < |p.fields|
    ensures FieldSelects(p, i, op, d) <==> !FieldRuledOut(p, p.fields[i], op, d)
  {
  }

  // ----- Sorted candidate lists

  lemma SortedSnoc(ids: seq<nat>, x: nat)
    requires Sorted(ids) && forall y :: y in ids ==> y < x
    ensures Sorted(ids + [x])
  {
    assert forall k :: 0 <= k < |ids| ==> ids[k] in ids;
  }

  /** The common ids of two lists behind a position in each. */
  function Common(ids: seq<nat>, i: nat, xs: seq<nat>, j: nat): (r: seq<nat>)
    requires i <= |ids| && j <= |xs|
    decreases |ids| - i + |xs| - j
  {
    if i == |ids| || j == |xs| then []
    else if ids[i] < xs[j] then Common(ids, i + 1, xs, j)
    else if ids[i] > xs[j] then Common(ids, i, xs, j + 1)
    else [ids[i]] + Common(ids, i + 1, xs, j + 1)
  }

  predicate Behind(x: nat, ids: seq<nat>, i: nat)
  {
    exists k :: i <= k < |ids| && ids[k] == x
  }

  lemma BehindStep(x: nat, ids: seq<nat>, i: nat)
    requires i <= |ids|
    ensures Behind(x, ids, i) <==> i < |ids| && (x == ids[i] || Behind(x, ids, i + 1))
    ensures Sorted(ids) && Behind(x, ids, i) ==> x >= ids[i]
    ensures Sorted(ids) && Behind(x, ids, i + 1) ==> x > ids[i]
  {
  }

  lemma {:induction false} CommonMeaning(ids: seq<nat>, i: nat, xs: seq<nat>, j: nat, x: nat)
    requires Sorted(ids) && Sorted(xs) && i <= |ids| && j <= |xs|
    ensures x in Common(ids, i, xs, j) <==> Behind(x, ids, i) && Behind(x, xs, j)
    decreases |ids| - i + |xs| - j
  {
    hide Behind, Sorted;
    BehindStep(x, ids, i);
    BehindStep(x, xs, j);
    if i < |ids| && j < |xs| {
      CommonMeaning(ids, i, xs, j + 1, x);
      CommonMeaning(ids, i + 1, xs, j, x);
      CommonMeaning(ids, i + 1, xs, j + 1, x);
    }
  }

  lemma {:induction false} CommonSorted(ids: seq<nat>, i: nat, xs: seq<nat>, j: nat)
    requires Sorted(ids) && Sorted(xs) && i <= |ids| && j <= |xs|
    ensures Sorted(Common(ids, i, xs, j))
    ensures i < |ids| ==> forall k :: 0 <= k < |Common(ids, i, xs, j)| ==> ids[i] <= Common(ids, i, xs, j)[k]
    decreases |ids| - i + |xs| - j
  {
    if i < |ids| && j < |xs| {
      if ids[i] < xs[j] {
        CommonSorted(ids, i + 1, xs, j);
      } else if ids[i] > xs[j] {
        CommonSorted(ids, i, xs, j + 1);
      } else {
        CommonSorted(ids, i + 1, xs, j + 1);
      }
    }
  }

  lemma Split(kept: seq<nat>, ids: seq<nat>, read: nat)
    requires read < |ids|
    ensures var all := kept + ids[read..];
            && |all| > |kept| && all[|kept|] == ids[read]
            && all[..|kept|] + all[|kept| + 1..] == kept + ids[read + 1..]
            && all == (kept + [ids[read]]) + ids[read + 1..]
  {
  }

  lemma MoveOver(kept: seq<nat>, x: nat, rest: seq<nat>)
    ensures (kept + [x]) + rest == kept + ([x] + rest)
    ensures kept + [] == kept && [] + rest == rest
  {
  }

  lemma CommonIds(ids: seq<nat>, xs: seq<nat>)
    requires Sorted(ids) && Sorted(xs)
    ensures Sorted(Common(ids, 0, xs, 0))
    ensures forall x :: x in Common(ids, 0, xs, 0) <==> x in ids && x in xs
  {
    hide Common, Sorted;
    CommonSorted(ids, 0, xs, 0);
    forall x ensures x in Common(ids, 0, xs, 0) <==> x in ids && x in xs {
      CommonMeaning(ids, 0, xs, 0, x);
    }
  }

  lemma CommonStep(ids: seq<nat>, i: nat, xs: seq<nat>, j: nat)
    requires i < |ids| && j < |xs|
    ensures Common(ids, i, xs, j)
         == if ids[i] < xs[j] then Common(ids, i + 1, xs, j)
            else if ids[i] > xs[j] then Common(ids, i, xs, j + 1)
            else [ids[i]] + Common(ids, i + 1, xs, j + 1)
  {
  }

  lemma CommonEnd(ids: seq<nat>, i: nat, xs: seq<nat>, j: nat)
    requires i <= |ids| && j <= |xs| && (i == |ids| || j == |xs|)
    ensures Common(ids, i, xs, j) == []
  {
  }

  /** Drops the ids that are not in another sorted list, in place. */
  method InplaceIntersect(ids: seq<nat>, xs: seq<nat>) returns (result: seq<nat>)
    requires Sorted(ids) && Sorted(xs)
    ensures Sorted(result)
    ensures forall x :: x in result <==> x in ids && x in xs
  {
    hide Sorted, Common;
    result := ids;
    var i, j := 0, 0;
    ghost var read: nat, kept: seq<nat> := 0, [];
    MoveOver(kept, 0, Common(ids, 0, xs, 0));
    while i < |result| && j < |xs|
      invariant i == |kept| && j <= |xs| && read <= |ids| && result == kept + ids[read..]
      invariant kept + Common(ids, read, xs, j) == Common(ids, 0, xs, 0)
      decreases |result| - i + |xs| - j
    {
      Split(kept, ids, read);
      CommonStep(ids, read, xs, j);
      if result[i] < xs[j] {
        result := result[..i] + result[i + 1..];
        read := read + 1;
      } else if result[i] > xs[j] {
        j := j + 1;
      } else {
        MoveOver(kept, ids[read], Common(ids, read + 1, xs, j + 1));
        kept := kept + [ids[read]];
        i := i + 1;
        j := j + 1;
        read := read + 1;
      }
    }
    result := result[..i];
    CommonEnd(ids, read, xs, j);
    MoveOver(kept, 0, []);
    CommonIds(ids, xs);
  }

  predicate WeaklySorted(ids: seq<nat>)
  {
    forall i, j :: 0 <= i < j < |ids| ==> ids[i] <= ids[j]
  }

  /** Merges two sorted halves, as the standard library does. */
  method Merge(a: seq<nat>, b: seq<nat>) returns (result: seq<nat>)
    requires Sorted(a) && Sorted(b)
    ensures WeaklySorted(result)
    ensures forall x :: x in result <==> x in a || x in b
  {
    result := [];
    var i, j := 0, 0;
    while i < |a| || j < |b|
      invariant 0 <= i <= |a| && 0 <= j <= |b|
      invariant WeaklySorted(result)
      invariant forall k, m :: 0 <= k < |result| && i <= m < |a| ==> result[k] <= a[m]
      invariant forall k, m :: 0 <= k < |result| && j <= m < |b| ==> result[k] <= b[m]
      invariant forall k :: 0 <= k < |result| ==> result[k] in a || result[k] in b
      invariant forall k :: 0 <= k < i ==> a[k] in result
      invariant forall k :: 0 <= k < j ==> b[k] in result
      decreases |a| - i + |b| - j
    {
      if j == |b| || (i < |a| && a[i] <= b[j]) {
        result := result + [a[i]];
        i := i + 1;
      } else {
        result := result + [b[j]];
        j := j + 1;
      }
    }
  }

  /** Drops repetitions from a sorted list. */
  method Unique(ids: seq<nat>) returns (result: seq<nat>)
    requires WeaklySorted(ids)
    ensures Sorted(result)
    ensures forall x :: x in result <==> x in ids
  {
    result := [];
    for i := 0 to |ids|
      invariant Sorted(result) && |result| <= i && (i > 0 ==> |result| > 0 && result[|result| - 1] == ids[i - 1])
      invariant forall k :: 0 <= k < |result| ==> result[k] in ids
      invariant forall k :: 0 <= k < i ==> ids[k] in result
    {
      if result == [] || result[|result| - 1] != ids[i] {
        result := result + [ids[i]];
      }
    }
  }

  method InplaceUnify(ids: seq<nat>, xs: seq<nat>) returns (result: seq<nat>)
    requires Sorted(ids) && Sorted(xs)
    ensures Sorted(result)
    ensures forall x :: x in result <==> x in ids || x in xs
  {
    result := Merge(ids, xs);
    result := Unique(result);
  }

  // ----- The lookup

  predicate ConnectivesFilled(e: Expr)
  {
    match e
    case NoExpr => false
    case Conjunction(es) => es.Cons? && ConnectivesFilledEach(es)
    case Disjunction(es) => ConnectivesFilledEach(es)
    case _ => true
  }

  predicate ConnectivesFilledEach(es: Exprs)
  {
    es.Cons? ==> ConnectivesFilled(es.head) && ConnectivesFilledEach(es.tail)
  }

  /** A sorted list of the partitions that have a property. */
  ghost predicate Picks(parts: seq<Partition>, ids: seq<nat>, wanted: Partition -> bool)
  {
    && Sorted(ids)
    && (forall k :: 0 <= k < |parts| ==> (parts[k].id in ids <==> wanted(parts[k])))
    && (forall x :: x in ids ==> exists k :: 0 <= k < |parts| && parts[k].id == x)
  }

  method PickBy(parts: seq<Partition>, wanted: Partition -> bool) returns (ids: seq<nat>)
    requires Ordered(parts)
    ensures Picks(parts, ids, wanted)
  {
    ids := [];
    for i := 0 to |parts|
      invariant Sorted(ids)
      invariant forall x :: x in ids ==> exists k :: 0 <= k < i && parts[k].id == x
      invariant forall k :: 0 <= k < i ==> (parts[k].id in ids <==> wanted(parts[k]))
    {
      SortedSnoc(ids, parts[i].id);
      if wanted(parts[i]) {
        ids := ids + [parts[i].id];
      }
    }
  }

  method Search(ctx: Context, parts: seq<Partition>, l: Operand, op: RelOp, d: Data) returns (ids: seq<nat>)
    requires Ordered(parts) && (l.Field? || l.TypeName?)
    ensures Picks(parts, ids, p => PredicateSelects(ctx, p, l, op, Value(d)))
    ensures forall k :: 0 <= k < |parts| ==> (parts[k].id in ids <==> !RulesOutLeaf(ctx, parts[k], l, op, d))
  {
    hide PredicateSelects, RulesOutLeaf;
    ids := [];
    for i := 0 to |parts|
      invariant Sorted(ids)
      invariant forall x :: x in ids ==> exists k :: 0 <= k < i && parts[k].id == x
      invariant forall k :: 0 <= k < i ==> (parts[k].id in ids <==> PredicateSelects(ctx, parts[k], l, op, Value(d)))
    {
      var some := SearchFields(ctx, parts[i], l, op, d);
      SortedSnoc(ids, parts[i].id);
      if some {
        ids := ids + [parts[i].id];
      }
    }
    forall k | 0 <= k < |parts| ensures parts[k].id in ids <==> !RulesOutLeaf(ctx, parts[k], l, op, d) {
      PrunedLeaf(ctx, parts[k], l, op, Value(d));
    }
  }

  method SearchFields(ctx: Context, p: Partition, l: Operand, op: RelOp, d: Data) returns (some: bool)
    requires l.Field? || l.TypeName?
    ensures some <==> PredicateSelects(ctx, p, l, op, Value(d))
  {
    hide FieldMatches, FieldSelects;
    for i := 0 to |p.fields|
      invariant forall k :: 0 <= k < i ==> !(FieldMatches(ctx, l, op, d, p.fields[k]) && FieldSelects(p, k, op, d))
    {
      if FieldMatches(ctx, l, op, d, p.fields[i]) && FieldSelects(p, i, op, d) {
        return true;
      }
    }
    return false;
  }

  method Lookup(ctx: Context, parts: seq<Partition>, e: Expr) returns (ids: seq<nat>)
    requires Ordered(parts) && ConnectivesFilled(e)
    ensures Picks(parts, ids, p => Selects(ctx, p, e))
    ensures forall k :: 0 <= k < |parts| ==> (parts[k].id in ids <==> !RulesOut(ctx, parts[k], e))
    decreases e
  {
    hide PredicateSelects, RulesOut;
    match e {
      case Conjunction(es) => ids := LookupAll(ctx, parts, es);
      case Disjunction(es) => ids := LookupAny(ctx, parts, es);
      case Negation(_) => ids := PickBy(parts, _ => true);
      case Predicate(l, op, r) =>
        if r.Value? && (l.Field? || l.TypeName?) {
          ids := Search(ctx, parts, l, op, r.data);
        } else {
          ids := PickBy(parts, p => PredicateSelects(ctx, p, l, op, r));
        }
    }
    forall k | 0 <= k < |parts| ensures parts[k].id in ids <==> !RulesOut(ctx, parts[k], e) {
      PrunedExactly(ctx, parts[k], e);
    }
  }

  method LookupAll(ctx: Context, parts: seq<Partition>, es: Exprs) returns (ids: seq<nat>)
    requires Ordered(parts) && es.Cons? && ConnectivesFilledEach(es)
    ensures Picks(parts, ids, p => SelectsAll(ctx, p, es))
    decreases es
  {
    hide PredicateSelects;
    ids := Lookup(ctx, parts, es.head);
    var rest := es.tail;
    if ids != [] {
      while rest.Cons?
        invariant (es nonincreases to rest) && ConnectivesFilledEach(rest)
        invariant Sorted(ids) && forall x :: x in ids ==> exists k :: 0 <= k < |parts| && parts[k].id == x
        invariant forall k :: 0 <= k < |parts| ==>
          (SelectsAll(ctx, parts[k], es) <==> parts[k].id in ids && SelectsAll(ctx, parts[k], rest))
        decreases rest
      {
        var xs := Lookup(ctx, parts, rest.head);
        if xs == [] {
          return xs;
        }
        ids := InplaceIntersect(ids, xs);
        rest := rest.tail;
      }
    }
  }

  method LookupAny(ctx: Context, parts: seq<Partition>, es: Exprs) returns (ids: seq<nat>)
    requires Ordered(parts) && ConnectivesFilledEach(es)
    ensures Picks(parts, ids, p => SelectsAny(ctx, p, es))
    decreases es
  {
    hide PredicateSelects;
    ids := [];
    var rest := es;
    while rest.Cons?
      invariant (es nonincreases to rest) && ConnectivesFilledEach(rest)
      invariant Sorted(ids) && forall x :: x in ids ==> exists k :: 0 <= k < |parts| && parts[k].id == x
      invariant forall k :: 0 <= k < |parts| ==>
        (SelectsAny(ctx, parts[k], es) <==> parts[k].id in ids || SelectsAny(ctx, parts[k], rest))
      decreases rest
    {
      var xs := Lookup(ctx, parts, rest.head);
      if |xs| == |parts| {
        AllPicked(parts, xs);
        return xs;
      }
      ids := InplaceUnify(ids, xs);
      rest := rest.tail;
    }
  }

  /** As many candidates as partitions means that all are candidates. */
  lemma AllPicked(parts: seq<Partition>, ids: seq<nat>)
    requires Ordered(parts) && Sorted(ids) && |ids| == |parts|
    requires forall x :: x in ids ==> exists k :: 0 <= k < |parts| && parts[k].id == x
    ensures forall k :: 0 <= k < |parts| ==> parts[k].id in ids
  {
    forall k | 0 <= k < |parts| ensures parts[k].id == ids[k] {
      AtLeast(parts, ids, k);
      AtMost(parts, ids, k);
    }
  }

  lemma {:induction false} AtLeast(parts: seq<Partition>, ids: seq<nat>, k: nat)
    requires Ordered(parts) && Sorted(ids) && |ids| == |parts| && k < |ids|
    requires forall x :: x in ids ==> exists k :: 0 <= k < |parts| && parts[k].id == x
    ensures parts[k].id <= ids[k]
  {
    assert ids[k] in ids;
    var m :| 0 <= m < |parts| && parts[m].id == ids[k];
    if k > 0 {
      AtLeast(parts, ids, k - 1);
    }
  }

  lemma {:induction false} AtMost(parts: seq<Partition>, ids: seq<nat>, k: nat)
    requires Ordered(parts) && Sorted(ids) && |ids| == |parts| && k < |ids|
    requires forall x :: x in ids ==> exists k :: 0 <= k < |parts| && parts[k].id == x
    ensures ids[k] <= parts[k].id
    decreases |ids| - k
  {
    assert ids[k] in ids;
    var m :| 0 <= m < |parts| && parts[m].id == ids[k];
    if k < |ids| - 1 {
      AtMost(parts, ids, k + 1);
    }
  }
}
