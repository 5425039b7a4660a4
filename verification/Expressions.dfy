/** Query expressions, the reference meaning of a predicate, and the passes that
    bring an expression into normal form. */
module Expressions {
  // ----- Data and relational operators

  datatype Data =
    | Null
    | Bool(b: bool)
    | Number(n: int)
    | Text(text: string)
    | Pattern(pattern: string)
    | Address(address: nat)
    | Subnet(network: nat, length: nat)
    | List(items: seq<Data>)

  datatype Option<T> = None | Some(value: T)

  datatype RelOp = Equal | NotEqual | Less | LessEqual | Greater | GreaterEqual | In | NotIn | Ni | NotNi

  /** The parts of the type system that expressions only call: the strict order
      on data, the two ways to apply a pattern, and subnet containment. */
  datatype Library = Library(
    less: (Data, Data) -> bool,
    matches: (string, string) -> bool,
    searches: (string, string) -> bool,
    containsAddress: (nat, nat, nat) -> bool,
    containsSubnet: (nat, nat, nat, nat) -> bool)

  predicate OccursAt(s: string, t: string, i: nat)
  {
    i + |s| <= |t| && t[i..i + |s|] == s
  }

  predicate Substring(s: string, t: string)
  {
    exists i :: 0 <= i <= |t| && OccursAt(s, t, i)
  }

  function TextAndPattern(lib: Library, x: Data, y: Data): Option<bool>
  {
    match (x, y)
    case (Text(s), Pattern(p)) => Some(lib.matches(p, s))
    case (Pattern(p), Text(s)) => Some(lib.matches(p, s))
    case _ => None
  }

  predicate EvaluateIn(lib: Library, x: Data, y: Data)
  {
    match (x, y)
    case (_, List(items)) => x in items
    case (Text(s), Text(t)) => Substring(s, t)
    case (Text(s), Pattern(p)) => lib.searches(p, s)
    case (Address(a), Subnet(n, l)) => lib.containsAddress(n, l, a)
    case (Subnet(m, k), Subnet(n, l)) => lib.containsSubnet(n, l, m, k)
    case _ => false
  }

  /** Whether two values stand in a relation. */
  predicate Evaluate(lib: Library, x: Data, op: RelOp, y: Data)
  {
    match op
    case In => EvaluateIn(lib, x, y)
    case NotIn => !EvaluateIn(lib, x, y)
    case Ni => EvaluateIn(lib, y, x)
    case NotNi => !EvaluateIn(lib, y, x)
    case Equal => (match TextAndPattern(lib, x, y) case Some(b) => b case None => x == y)
    case NotEqual => (match TextAndPattern(lib, x, y) case Some(b) => !b case None => x != y)
    case Less => lib.less(x, y)
    case LessEqual => !lib.less(y, x)
    case Greater => lib.less(y, x)
    case GreaterEqual => !lib.less(x, y)
  }

  function Negate(op: RelOp): RelOp
  {
    match op
    case Equal => NotEqual
    case NotEqual => Equal
    case Less => GreaterEqual
    case LessEqual => Greater
    case Greater => LessEqual
    case GreaterEqual => Less
    case In => NotIn
    case NotIn => In
    case Ni => NotNi
    case NotNi => Ni
  }

  function Flip(op: RelOp): RelOp
  {
    match op
    case Equal => op
    case NotEqual => op
    case Less => Greater
    case LessEqual => GreaterEqual
    case Greater => Less
    case GreaterEqual => LessEqual
    case In => Ni
    case NotIn => NotNi
    case Ni => In
    case NotNi => NotIn
  }

  /** Negating an operator complements the relation, flipping it swaps the
      operands, and both undo themselves. */
  lemma OperatorMeaning(lib: Library, x: Data, op: RelOp, y: Data)
    ensures Evaluate(lib, x, Negate(op), y) == !Evaluate(lib, x, op, y)
    ensures Evaluate(lib, y, Flip(op), x) == Evaluate(lib, x, op, y)
    ensures Negate(Negate(op)) == op && Flip(Flip(op)) == op && Negate(Flip(op)) == Flip(Negate(op))
  {
    hide EvaluateIn;
  }

  /** What the operators mean where numbers are in their order: on numbers and text, in
      lists, and on addresses and subnets. */
  lemma OperatorsOnValues(lib: Library, m: int, n: int, s: string, t: string, x: Data, items: seq<Data>, a: nat,
                          b: nat, k: nat)
    requires forall i, j :: lib.less(Number(i), Number(j)) <==> i < j
    ensures Evaluate(lib, Number(m), Less, Number(n)) <==> m < n
    ensures Evaluate(lib, Number(m), LessEqual, Number(n)) <==> m <= n
    ensures Evaluate(lib, Number(m), Greater, Number(n)) <==> m > n
    ensures Evaluate(lib, Number(m), GreaterEqual, Number(n)) <==> m >= n
    ensures Evaluate(lib, Number(m), Equal, Number(n)) <==> m == n
    ensures Evaluate(lib, Text(s), In, Text(t)) <==> exists pre, post :: t == pre + (s + post)
    ensures Evaluate(lib, Text(s), Equal, Pattern(t)) == Evaluate(lib, Pattern(t), Equal, Text(s)) == lib.matches(t, s)
    ensures Evaluate(lib, Text(s), In, Pattern(t)) == lib.searches(t, s)
    ensures Evaluate(lib, x, In, List(items)) <==> x in items
    ensures Evaluate(lib, Address(a), In, Subnet(b, k)) == lib.containsAddress(b, k, a)
  {
    SubstringMeaning(s, t);
  }

  lemma SubstringMeaning(s: string, t: string)
    ensures Substring(s, t) <==> exists pre, post :: t == pre + (s + post)
  {
    if Substring(s, t) {
      var i :| 0 <= i <= |t| && OccursAt(s, t, i);
      assert t == t[..i] + (s + t[i + |s|..]);
    }
    if exists pre, post :: t == pre + (s + post) {
      var pre, post :| t == pre + (s + post);
      assert OccursAt(s, t, |pre|);
    }
  }

  predicate IsNegated(op: RelOp)
  {
    op in {NotEqual, NotIn, NotNi}
  }

  /** Of a test for equality or membership and its negation, exactly one counts as
      negated; an ordering never does. Flipping makes no difference. */
  lemma NegatedOperators(op: RelOp)
    ensures IsNegated(op) || IsNegated(Negate(op)) <==> op in {Equal, NotEqual, In, NotIn, Ni, NotNi}
    ensures !(IsNegated(op) && IsNegated(Negate(op))) && IsNegated(Flip(op)) == IsNegated(op)
  {
  }

  // ----- Expressions

  datatype MetaKind = Schema | SchemaId | ImportTime | Internal

  datatype Operand =
    | Value(data: Data)
    | Meta(kind: MetaKind)
    | Field(name: string)
    | TypeName(typeName: string)
    | Column(index: nat)

  datatype Expr =
    | NoExpr
    | Conjunction(conjuncts: Exprs)
    | Disjunction(disjuncts: Exprs)
    | Negation(negated: Expr)
    | Predicate(lhs: Operand, op: RelOp, rhs: Operand)

  datatype Exprs = Nil | Cons(head: Expr, tail: Exprs)

  predicate Member(e: Expr, es: Exprs)
  {
    es.Cons? && (es.head == e || Member(e, es.tail))
  }

  function Append(es: Exprs, fs: Exprs): Exprs
  {
    match es
    case Nil => fs
    case Cons(e, t) => Cons(e, Append(t, fs))
  }

  /** The truth of each predicate. */
  type Test = (Operand, RelOp, Operand) -> bool

  /** The truth of an expression when a null leaf counts as the value even below
      an even number of negations, and as the value odd below an odd number. */
  predicate Truth(v: Test, e: Expr, even: bool, odd: bool)
  {
    match e
    case NoExpr => even
    case Conjunction(es) => TruthAll(v, es, even, odd)
    case Disjunction(es) => TruthAny(v, es, even, odd)
    case Negation(f) => !Truth(v, f, odd, even)
    case Predicate(l, op, r) => v(l, op, r)
  }

  predicate TruthAll(v: Test, es: Exprs, even: bool, odd: bool)
  {
    es.Cons? ==> Truth(v, es.head, even, odd) && TruthAll(v, es.tail, even, odd)
  }

  predicate TruthAny(v: Test, es: Exprs, even: bool, odd: bool)
  {
    es.Cons? && (Truth(v, es.head, even, odd) || TruthAny(v, es.tail, even, odd))
  }

  /** An assignment of data to extractors. */
  datatype Env = Env(lib: Library, data: Operand -> Data)

  function OperandData(env: Env, o: Operand): Data
  {
    if o.Value? then o.data else env.data(o)
  }

  function EnvTest(env: Env): Test
  {
    (l, op, r) => Evaluate(env.lib, OperandData(env, l), op, OperandData(env, r))
  }

  /** The meaning of an expression: a null leaf is false wherever it stands. */
  predicate Holds(env: Env, e: Expr)
  {
    Truth(EnvTest(env), e, false, false)
  }

  // ----- The passes

  predicate Single(es: Exprs)
  {
    es.Cons? && es.tail == Nil
  }

  function OnlyOr(es: Exprs, e: Expr): Expr
  {
    if Single(es) then es.head else e
  }

  /** Merges a connective into an enclosing one of the same kind, one level per
      pass, and replaces a connective of a single operand by that operand. */
  function Hoist(e: Expr): Expr
  {
    match e
    case NoExpr => NoExpr
    case Conjunction(es) => var h := HoistConjuncts(es); OnlyOr(h, Conjunction(h))
    case Disjunction(es) => var h := HoistDisjuncts(es); OnlyOr(h, Disjunction(h))
    case Negation(f) => Negation(Hoist(f))
    case Predicate(_, _, _) => e
  }

  function HoistEach(es: Exprs): Exprs
  {
    match es
    case Nil => Nil
    case Cons(e, t) => Cons(Hoist(e), HoistEach(t))
  }

  function HoistConjuncts(es: Exprs): Exprs
  {
    match es
    case Nil => Nil
    case Cons(e, t) =>
      if e.Conjunction? then Append(HoistEach(e.conjuncts), HoistConjuncts(t))
      else Cons(Hoist(e), HoistConjuncts(t))
  }

  function HoistDisjuncts(es: Exprs): Exprs
  {
    match es
    case Nil => Nil
    case Cons(e, t) =>
      if e.Disjunction? then Append(HoistEach(e.disjuncts), HoistDisjuncts(t))
      else Cons(Hoist(e), HoistDisjuncts(t))
  }

  /** Puts the extractor of a predicate on the left. */
  function Align(e: Expr): Expr
  {
    match e
    case NoExpr => NoExpr
    case Conjunction(es) => Conjunction(AlignEach(es))
    case Disjunction(es) => Disjunction(AlignEach(es))
    case Negation(f) => Negation(Align(f))
    case Predicate(l, op, r) => if !l.Value? || r.Value? then e else Predicate(r, Flip(op), l)
  }

  function AlignEach(es: Exprs): Exprs
  {
    match es
    case Nil => Nil
    case Cons(e, t) => Cons(Align(e), AlignEach(t))
  }

  /** Pushes negations down to the predicates. */
  function Denegate(e: Expr, negate: bool): Expr
  {
    match e
    case NoExpr => NoExpr
    case Conjunction(es) => var d := DenegateEach(es, negate); if negate then Disjunction(d) else Conjunction(d)
    case Disjunction(es) => var d := DenegateEach(es, negate); if negate then Conjunction(d) else Disjunction(d)
    case Negation(f) => if f.Negation? then Denegate(f.negated, negate) else Denegate(f, !negate)
    case Predicate(l, op, r) => Predicate(l, if negate then Negate(op) else op, r)
  }

  function DenegateEach(es: Exprs, negate: bool): Exprs
  {
    match es
    case Nil => Nil
    case Cons(e, t) => Cons(Denegate(e, negate), DenegateEach(t, negate))
  }

  /** Drops repeated operands of a connective, keeping the first of each. */
  function Deduplicate(e: Expr): Expr
  {
    match e
    case NoExpr => NoExpr
    case Conjunction(es) => Conjunction(DeduplicateEach(es, Nil))
    case Disjunction(es) => Disjunction(DeduplicateEach(es, Nil))
    case Negation(f) => Deduplicate(f)
    case Predicate(_, _, _) => e
  }

  /** The result so far grows at its end, as the vector in the source does. */
  function DeduplicateEach(es: Exprs, result: Exprs): Exprs
  {
    match es
    case Nil => result
    case Cons(e, t) =>
      var p := Deduplicate(e);
      DeduplicateEach(t, if Member(p, result) then result else Append(result, Cons(p, Nil)))
  }

  function Normalize(e: Expr): Expr
  {
    Hoist(Deduplicate(Denegate(Align(Hoist(e)), false)))
  }

  /** Rejects null leaves and every predicate that fails its own check. */
  predicate Validates(check: (Operand, RelOp, Operand) -> bool, e: Expr)
  {
    match e
    case NoExpr => false
    case Conjunction(es) => ValidatesEach(check, es)
    case Disjunction(es) => ValidatesEach(check, es)
    case Negation(f) => Validates(check, f)
    case Predicate(l, op, r) => check(l, op, r)
  }

  predicate ValidatesEach(check: (Operand, RelOp, Operand) -> bool, es: Exprs)
  {
    es.Cons? ==> Validates(check, es.head) && ValidatesEach(check, es.tail)
  }

  function NormalizeAndValidate(check: (Operand, RelOp, Operand) -> bool, e: Expr): Option<Expr>
  {
    var n := Normalize(e);
    if Validates(check, n) then Some(n) else None
  }

  // ----- Checks on the leaves

  /** Whether null leaves are allowed, and which predicates. */
  datatype Leaf = Leaf(nulls: bool, test: Test)

  /** Leaves below an even and below an odd number of negations are as allowed there;
      there are negations only if they are allowed. */
  predicate Checked(negations: bool, e: Expr, even: Leaf, odd: Leaf)
  {
    match e
    case NoExpr => even.nulls
    case Conjunction(es) => CheckedEach(negations, es, even, odd)
    case Disjunction(es) => CheckedEach(negations, es, even, odd)
    case Negation(f) => negations && Checked(negations, f, odd, even)
    case Predicate(l, op, r) => even.test(l, op, r)
  }

  predicate CheckedEach(negations: bool, es: Exprs, even: Leaf, odd: Leaf)
  {
    es.Cons? ==> Checked(negations, es.head, even, odd) && CheckedEach(negations, es.tail, even, odd)
  }

  predicate AnyTest(l: Operand, op: RelOp, r: Operand)
  {
    true
  }

  /** Data is not left of an extractor. */
  predicate AlignedTest(l: Operand, op: RelOp, r: Operand)
  {
    l.Value? ==> r.Value?
  }

  const ANY := Leaf(true, AnyTest)
  const NO_NULL := Leaf(false, AnyTest)
  const ALIGNED := Leaf(true, AlignedTest)

  predicate NoNulls(e: Expr)
  {
    Checked(true, e, NO_NULL, NO_NULL)
  }

  /** No null leaf below an odd number of negations. */
  predicate NoOddNulls(e: Expr)
  {
    Checked(true, e, ANY, NO_NULL)
  }

  function Pair(ok: (Operand, Operand) -> bool): Leaf
  {
    Leaf(true, (l, op, r) => ok(l, r))
  }

  /** Every predicate has a pair of operands that passes a check. */
  predicate Leaves(ok: (Operand, Operand) -> bool, e: Expr)
  {
    Checked(true, e, Pair(ok), Pair(ok))
  }

  predicate Positive(e: Expr)
  {
    Checked(false, e, ANY, ANY)
  }

  predicate PositiveEach(es: Exprs)
  {
    CheckedEach(false, es, ANY, ANY)
  }

  /** No negation, and no predicate with data left of an extractor. */
  predicate NormalForm(e: Expr)
  {
    Checked(false, e, ALIGNED, ALIGNED)
  }

  // ----- What a test has to respect

  /** The test of a predicate once its extractor is on the left. */
  function AlignTest(t: Test): Test
  {
    (l: Operand, op: RelOp, r: Operand) => if !l.Value? || r.Value? then t(l, op, r) else t(r, Flip(op), l)
  }

  /** Negating the operator complements the test. */
  function Complements(v: Test): Test
  {
    (l, op, r) => v(l, Negate(op), r) == !v(l, op, r)
  }

  /** Putting the extractor on the left keeps the test. */
  function Flips(v: Test): Test
  {
    (l, op, r) => AlignTest(v)(l, op, r) == v(l, op, r)
  }

  /** Both. */
  function Respects(v: Test): Test
  {
    (l, op, r) => Flips(v)(l, op, r) && AlignTest(Complements(v))(l, op, r)
  }

  lemma RespectsMeans(v: Test, l: Operand, op: RelOp, r: Operand)
    ensures Flips(v)(l, op, r) <==> !l.Value? || r.Value? || v(r, Flip(op), l) == v(l, op, r)
    ensures Respects(v)(l, op, r)
       <==> if !l.Value? || r.Value? then v(l, Negate(op), r) == !v(l, op, r)
            else v(r, Flip(op), l) == v(l, op, r) && v(r, Negate(Flip(op)), l) == !v(r, Flip(op), l)
  {
    assert AlignTest(v)(l, op, r) == if !l.Value? || r.Value? then v(l, op, r) else v(r, Flip(op), l);
    assert AlignTest(Complements(v))(l, op, r)
      == if !l.Value? || r.Value? then Complements(v)(l, op, r) else Complements(v)(r, Flip(op), l);
  }

  // ----- Connectives

  lemma {:induction false} AppendHolds(v: Test, es: Exprs, fs: Exprs, a: bool, b: bool)
    ensures TruthAll(v, Append(es, fs), a, b) <==> TruthAll(v, es, a, b) && TruthAll(v, fs, a, b)
    ensures TruthAny(v, Append(es, fs), a, b) <==> TruthAny(v, es, a, b) || TruthAny(v, fs, a, b)
  {
    if es.Cons? {
      AppendHolds(v, es.tail, fs, a, b);
    }
  }

  lemma {:induction false} MemberHolds(v: Test, e: Expr, es: Exprs, a: bool, b: bool)
    requires Member(e, es)
    ensures TruthAll(v, es, a, b) ==> Truth(v, e, a, b)
    ensures Truth(v, e, a, b) ==> TruthAny(v, es, a, b)
  {
    if es.head != e {
      MemberHolds(v, e, es.tail, a, b);
    }
  }

  /** An operand that decides: one that is false, if there is one, or one that is true. */
  lemma {:induction false} DecidingMember(v: Test, es: Exprs, a: bool, b: bool, truth: bool) returns (e: Expr)
    requires if truth then TruthAny(v, es, a, b) else !TruthAll(v, es, a, b)
    ensures Member(e, es) && Truth(v, e, a, b) == truth
  {
    e := es.head;
    if Truth(v, e, a, b) != truth {
      e := DecidingMember(v, es.tail, a, b, truth);
    }
  }

  /** All operands, some operand, or not the operand. */
  lemma ConnectiveMeaning(v: Test, es: Exprs, f: Expr, a: bool, b: bool)
    ensures Truth(v, Conjunction(es), a, b) <==> forall e :: Member(e, es) ==> Truth(v, e, a, b)
    ensures Truth(v, Disjunction(es), a, b) <==> exists e :: Member(e, es) && Truth(v, e, a, b)
    ensures Truth(v, Negation(f), a, b) <==> !Truth(v, f, b, a)
  {
    hide Member;
    forall e | Member(e, es)
      ensures TruthAll(v, es, a, b) ==> Truth(v, e, a, b)
      ensures Truth(v, e, a, b) ==> TruthAny(v, es, a, b)
    {
      MemberHolds(v, e, es, a, b);
    }
    if TruthAny(v, es, a, b) {
      var e := DecidingMember(v, es, a, b, true);
    }
    if !TruthAll(v, es, a, b) {
      var e := DecidingMember(v, es, a, b, false);
    }
  }

  // ----- Each pass keeps the meaning

  lemma {:induction false} HoistMeaning(v: Test, e: Expr, a: bool, b: bool)
    ensures Truth(v, Hoist(e), a, b) == Truth(v, e, a, b)
  {
    match e
    case NoExpr =>
    case Conjunction(es) => HoistConjunctsMeaning(v, es, a, b);
    case Disjunction(es) => HoistDisjunctsMeaning(v, es, a, b);
    case Negation(f) => HoistMeaning(v, f, b, a);
    case Predicate(_, _, _) =>
  }

  lemma {:induction false} HoistEachMeaning(v: Test, es: Exprs, a: bool, b: bool)
    ensures TruthAll(v, HoistEach(es), a, b) == TruthAll(v, es, a, b)
    ensures TruthAny(v, HoistEach(es), a, b) == TruthAny(v, es, a, b)
  {
    if es.Cons? {
      HoistMeaning(v, es.head, a, b);
      HoistEachMeaning(v, es.tail, a, b);
    }
  }

  lemma {:induction false} HoistConjunctsMeaning(v: Test, es: Exprs, a: bool, b: bool)
    ensures TruthAll(v, HoistConjuncts(es), a, b) == TruthAll(v, es, a, b)
  {
    if es.Cons? {
      HoistConjunctsMeaning(v, es.tail, a, b);
      if es.head.Conjunction? {
        HoistEachMeaning(v, es.head.conjuncts, a, b);
        AppendHolds(v, HoistEach(es.head.conjuncts), HoistConjuncts(es.tail), a, b);
      } else {
        HoistMeaning(v, es.head, a, b);
      }
    }
  }

  lemma {:induction false} HoistDisjunctsMeaning(v: Test, es: Exprs, a: bool, b: bool)
    ensures TruthAny(v, HoistDisjuncts(es), a, b) == TruthAny(v, es, a, b)
  {
    if es.Cons? {
      HoistDisjunctsMeaning(v, es.tail, a, b);
      if es.head.Disjunction? {
        HoistEachMeaning(v, es.head.disjuncts, a, b);
        AppendHolds(v, HoistEach(es.head.disjuncts), HoistDisjuncts(es.tail), a, b);
      } else {
        HoistMeaning(v, es.head, a, b);
      }
    }
  }

  lemma {:induction false} AlignMeaning(v: Test, e: Expr, a: bool, b: bool)
    requires Checked(true, e, Leaf(true, Flips(v)), Leaf(true, Flips(v)))
    ensures Truth(v, Align(e), a, b) == Truth(v, e, a, b)
  {
    match e
    case NoExpr =>
    case Conjunction(es) => AlignEachMeaning(v, es, a, b);
    case Disjunction(es) => AlignEachMeaning(v, es, a, b);
    case Negation(f) => AlignMeaning(v, f, b, a);
    case Predicate(_, _, _) =>
  }

  lemma {:induction false} AlignEachMeaning(v: Test, es: Exprs, a: bool, b: bool)
    requires CheckedEach(true, es, Leaf(true, Flips(v)), Leaf(true, Flips(v)))
    ensures TruthAll(v, AlignEach(es), a, b) == TruthAll(v, es, a, b)
    ensures TruthAny(v, AlignEach(es), a, b) == TruthAny(v, es, a, b)
  {
    if es.Cons? {
      AlignMeaning(v, es.head, a, b);
      AlignEachMeaning(v, es.tail, a, b);
    }
  }

  /** Leaves that are negated have to be complemented by that. */
  function Negates(v: Test, negate: bool): Leaf
  {
    if negate then Leaf(true, Complements(v)) else ANY
  }

  /** De Morgan. Pushing a negation down to a null leaf drops it, so below an odd
      number of negations such a leaf counts as true. */
  lemma {:induction false} DenegateMeaning(v: Test, e: Expr, negate: bool, odd: bool)
    requires Checked(true, e, Negates(v, negate), Negates(v, !negate))
    ensures Truth(v, Denegate(e, negate), false, odd) == (Truth(v, e, negate, !negate) != negate)
    decreases e
  {
    match e
    case NoExpr =>
    case Conjunction(es) => DenegateEachMeaning(v, es, negate, odd);
    case Disjunction(es) => DenegateEachMeaning(v, es, negate, odd);
    case Negation(f) =>
      if f.Negation? {
        DenegateMeaning(v, f.negated, negate, odd);
      } else {
        DenegateMeaning(v, f, !negate, odd);
      }
    case Predicate(_, _, _) =>
  }

  lemma {:induction false} DenegateEachMeaning(v: Test, es: Exprs, negate: bool, odd: bool)
    requires CheckedEach(true, es, Negates(v, negate), Negates(v, !negate))
    ensures var d := DenegateEach(es, negate);
            TruthAll(v, d, false, odd) == if negate then !TruthAny(v, es, true, false) else TruthAll(v, es, false, true)
    ensures var d := DenegateEach(es, negate);
            TruthAny(v, d, false, odd) == if negate then !TruthAll(v, es, true, false) else TruthAny(v, es, false, true)
    decreases es
  {
    if es.Cons? {
      DenegateMeaning(v, es.head, negate, odd);
      DenegateEachMeaning(v, es.tail, negate, odd);
    }
  }

  lemma {:induction false} DeduplicateMeaning(v: Test, e: Expr, a: bool, b: bool)
    requires Positive(e)
    ensures Truth(v, Deduplicate(e), a, b) == Truth(v, e, a, b)
    decreases e
  {
    match e
    case NoExpr =>
    case Conjunction(es) => DeduplicateEachMeaning(v, es, Nil, a, b);
    case Disjunction(es) => DeduplicateEachMeaning(v, es, Nil, a, b);
    case Predicate(_, _, _) =>
  }

  lemma {:induction false} DeduplicateEachMeaning(v: Test, es: Exprs, result: Exprs, a: bool, b: bool)
    requires PositiveEach(es)
    ensures TruthAll(v, DeduplicateEach(es, result), a, b) <==> TruthAll(v, result, a, b) && TruthAll(v, es, a, b)
    ensures TruthAny(v, DeduplicateEach(es, result), a, b) <==> TruthAny(v, result, a, b) || TruthAny(v, es, a, b)
    decreases es
  {
    if es.Cons? {
      var p := Deduplicate(es.head);
      DeduplicateMeaning(v, es.head, a, b);
      if Member(p, result) {
        MemberHolds(v, p, result, a, b);
        DeduplicateEachMeaning(v, es.tail, result, a, b);
      } else {
        AppendHolds(v, result, Cons(p, Nil), a, b);
        DeduplicateEachMeaning(v, es.tail, Append(result, Cons(p, Nil)), a, b);
      }
    }
  }

  // ----- No connective of a single operand

  predicate NoSingles(e: Expr)
  {
    match e
    case NoExpr => true
    case Conjunction(es) => !Single(es) && NoSinglesEach(es)
    case Disjunction(es) => !Single(es) && NoSinglesEach(es)
    case Negation(f) => NoSingles(f)
    case Predicate(_, _, _) => true
  }

  predicate NoSinglesEach(es: Exprs)
  {
    es.Cons? ==> NoSingles(es.head) && NoSinglesEach(es.tail)
  }

  lemma {:induction false} AppendNoSingles(es: Exprs, fs: Exprs)
    ensures NoSinglesEach(Append(es, fs)) <==> NoSinglesEach(es) && NoSinglesEach(fs)
  {
    if es.Cons? {
      AppendNoSingles(es.tail, fs);
    }
  }

  /** Whatever the input, hoisting leaves no connective of a single operand. */
  lemma {:induction false} HoistNoSingles(e: Expr)
    ensures NoSingles(Hoist(e))
  {
    match e
    case NoExpr =>
    case Conjunction(es) => HoistListNoSingles(es);
    case Disjunction(es) => HoistListNoSingles(es);
    case Negation(f) => HoistNoSingles(f);
    case Predicate(_, _, _) =>
  }

  lemma {:induction false} HoistListNoSingles(es: Exprs)
    ensures NoSinglesEach(HoistEach(es)) && NoSinglesEach(HoistConjuncts(es)) && NoSinglesEach(HoistDisjuncts(es))
  {
    if es.Cons? {
      HoistNoSingles(es.head);
      HoistListNoSingles(es.tail);
      if es.head.Conjunction? {
        HoistListNoSingles(es.head.conjuncts);
        AppendNoSingles(HoistEach(es.head.conjuncts), HoistConjuncts(es.tail));
      } else if es.head.Disjunction? {
        HoistListNoSingles(es.head.disjuncts);
        AppendNoSingles(HoistEach(es.head.disjuncts), HoistDisjuncts(es.tail));
      }
    }
  }

  // ----- No repeated operands

  predicate Distinct(es: Exprs)
  {
    es.Cons? ==> !Member(es.head, es.tail) && Distinct(es.tail)
  }

  lemma {:induction false} AppendMember(e: Expr, es: Exprs, fs: Exprs)
    ensures Member(e, Append(es, fs)) <==> Member(e, es) || Member(e, fs)
  {
    if es.Cons? {
      AppendMember(e, es.tail, fs);
    }
  }

  lemma {:induction false} AppendDistinct(es: Exprs, e: Expr)
    requires Distinct(es) && !Member(e, es)
    ensures Distinct(Append(es, Cons(e, Nil)))
  {
    if es.Cons? {
      AppendDistinct(es.tail, e);
      AppendMember(es.head, es.tail, Cons(e, Nil));
    }
  }

  /** The operands left by deduplication are pairwise different, and they are
      exactly the deduplicated operands of the input. */
  lemma {:induction false} DeduplicateDistinct(es: Exprs, result: Exprs, e: Expr)
    requires Distinct(result)
    ensures Distinct(DeduplicateEach(es, result))
    ensures Member(e, DeduplicateEach(es, result)) <==> Member(e, result) || SomeDeduplicates(es, e)
  {
    if es.Cons? {
      var p := Deduplicate(es.head);
      if Member(p, result) {
        DeduplicateDistinct(es.tail, result, e);
      } else {
        AppendDistinct(result, p);
        AppendMember(e, result, Cons(p, Nil));
        DeduplicateDistinct(es.tail, Append(result, Cons(p, Nil)), e);
      }
    }
  }

  predicate SomeDeduplicates(es: Exprs, e: Expr)
  {
    es.Cons? && (Deduplicate(es.head) == e || SomeDeduplicates(es.tail, e))
  }

  // ----- What hoisting leaves alone

  function Connectives(e: Expr): nat
  {
    match e
    case NoExpr => 0
    case Conjunction(es) => 1 + ConnectivesEach(es)
    case Disjunction(es) => 1 + ConnectivesEach(es)
    case Negation(f) => Connectives(f)
    case Predicate(_, _, _) => 0
  }

  function ConnectivesEach(es: Exprs): nat
  {
    if es.Nil? then 0 else Connectives(es.head) + ConnectivesEach(es.tail)
  }

  /** No connective is directly below one of its own kind. */
  predicate Unnested(e: Expr)
  {
    match e
    case NoExpr => true
    case Conjunction(es) => NoConjunction(es) && UnnestedEach(es)
    case Disjunction(es) => NoDisjunction(es) && UnnestedEach(es)
    case Negation(f) => Unnested(f)
    case Predicate(_, _, _) => true
  }

  predicate UnnestedEach(es: Exprs)
  {
    es.Cons? ==> Unnested(es.head) && UnnestedEach(es.tail)
  }

  predicate NoConjunction(es: Exprs)
  {
    es.Cons? ==> !es.head.Conjunction? && NoConjunction(es.tail)
  }

  predicate NoDisjunction(es: Exprs)
  {
    es.Cons? ==> !es.head.Disjunction? && NoDisjunction(es.tail)
  }

  lemma {:induction false} AppendConnectives(es: Exprs, fs: Exprs)
    ensures ConnectivesEach(Append(es, fs)) == ConnectivesEach(es) + ConnectivesEach(fs)
  {
    if es.Cons? {
      AppendConnectives(es.tail, fs);
    }
  }

  /** Hoisting leaves an expression alone if and only if it has no connective of a
      single operand and none directly below its own kind; otherwise there are fewer
      connectives. */
  lemma {:induction false} HoistShrinks(e: Expr)
    ensures if NoSingles(e) && Unnested(e) then Hoist(e) == e else Connectives(Hoist(e)) < Connectives(e)
  {
    match e
    case NoExpr =>
    case Conjunction(es) => HoistListShrinks(es);
    case Disjunction(es) => HoistListShrinks(es);
    case Negation(f) => HoistShrinks(f);
    case Predicate(_, _, _) =>
  }

  predicate SettledEach(es: Exprs)
  {
    NoSinglesEach(es) && UnnestedEach(es)
  }

  lemma {:induction false} HoistListShrinks(es: Exprs)
    ensures if SettledEach(es) then HoistEach(es) == es
            else ConnectivesEach(HoistEach(es)) < ConnectivesEach(es)
    ensures if SettledEach(es) && NoConjunction(es) then HoistConjuncts(es) == es
            else ConnectivesEach(HoistConjuncts(es)) < ConnectivesEach(es)
    ensures if SettledEach(es) && NoDisjunction(es) then HoistDisjuncts(es) == es
            else ConnectivesEach(HoistDisjuncts(es)) < ConnectivesEach(es)
  {
    if es.Cons? {
      HoistShrinks(es.head);
      HoistListShrinks(es.tail);
      if es.head.Conjunction? {
        HoistListShrinks(es.head.conjuncts);
        AppendConnectives(HoistEach(es.head.conjuncts), HoistConjuncts(es.tail));
      } else if es.head.Disjunction? {
        HoistListShrinks(es.head.disjuncts);
        AppendConnectives(HoistEach(es.head.disjuncts), HoistDisjuncts(es.tail));
      }
    }
  }

  // ----- Align, denegate and deduplicate in one pass

  /** The operands that are not among others. */
  function Minus(es: Exprs, others: Exprs): Exprs
  {
    match es
    case Nil => Nil
    case Cons(e, t) => if Member(e, others) then Minus(t, others) else Cons(e, Minus(t, others))
  }

  /** The first of each operand. */
  function Firsts(es: Exprs): Exprs
  {
    match es
    case Nil => Nil
    case Cons(e, t) => Cons(e, Minus(Firsts(t), Cons(e, Nil)))
  }

  lemma {:induction false} MinusMeaning(es: Exprs, others: Exprs, e: Expr)
    ensures Member(e, Minus(es, others)) <==> Member(e, es) && !Member(e, others)
    ensures Distinct(es) ==> Distinct(Minus(es, others))
  {
    if es.Cons? {
      MinusMeaning(es.tail, others, e);
      MinusMeaning(es.tail, others, es.head);
    }
  }

  lemma {:induction false} FirstsMeaning(es: Exprs, e: Expr)
    ensures Distinct(Firsts(es)) && (Member(e, Firsts(es)) <==> Member(e, es))
  {
    if es.Cons? {
      FirstsMeaning(es.tail, e);
      MinusMeaning(Firsts(es.tail), Cons(es.head, Nil), e);
      MinusMeaning(Firsts(es.tail), Cons(es.head, Nil), es.head);
    }
  }

  lemma {:induction false} MinusTwice(es: Exprs, p: Expr, others: Exprs)
    ensures Minus(Minus(es, Cons(p, Nil)), others) == Minus(es, Append(others, Cons(p, Nil)))
    ensures Member(p, others) ==> Minus(Minus(es, Cons(p, Nil)), others) == Minus(es, others)
    ensures Minus(es, Nil) == es
  {
    if es.Cons? {
      MinusTwice(es.tail, p, others);
      AppendMember(es.head, others, Cons(p, Nil));
    }
  }

  lemma {:induction false} AppendSnoc(es: Exprs, p: Expr, fs: Exprs)
    ensures Append(Append(es, Cons(p, Nil)), fs) == Append(es, Cons(p, fs))
  {
    if es.Cons? {
      AppendSnoc(es.tail, p, fs);
    }
  }

  function Deduplicated(es: Exprs): Exprs
  {
    match es
    case Nil => Nil
    case Cons(e, t) => Cons(Deduplicate(e), Deduplicated(t))
  }

  /** The growing result is the first of each deduplicated operand. */
  lemma {:induction false} DeduplicateFirsts(es: Exprs, result: Exprs)
    ensures DeduplicateEach(es, result) == Append(result, Minus(Firsts(Deduplicated(es)), result))
  {
    match es
    case Nil => AppendNil(result);
    case Cons(e, t) =>
      var p, fs := Deduplicate(e), Firsts(Deduplicated(t));
      MinusTwice(fs, p, result);
      if Member(p, result) {
        DeduplicateFirsts(t, result);
      } else {
        DeduplicateFirsts(t, Append(result, Cons(p, Nil)));
        AppendSnoc(result, p, Minus(fs, Append(result, Cons(p, Nil))));
      }
  }

  lemma {:induction false} AppendNil(es: Exprs)
    ensures Append(es, Nil) == es
  {
    if es.Cons? {
      AppendNil(es.tail);
    }
  }

  /** An expression, or its negation, with negations pushed down, extractors on the left
      and the first of each operand only. */
  function Simplified(e: Expr, negate: bool): Expr
  {
    match e
    case NoExpr => NoExpr
    case Conjunction(es) =>
      var fs := Firsts(SimplifiedEach(es, negate));
      if negate then Disjunction(fs) else Conjunction(fs)
    case Disjunction(es) =>
      var fs := Firsts(SimplifiedEach(es, negate));
      if negate then Conjunction(fs) else Disjunction(fs)
    case Negation(f) => Simplified(f, !negate)
    case Predicate(l, op, r) =>
      var o := if negate then Negate(op) else op;
      if l.Value? && !r.Value? then Predicate(r, Flip(o), l) else Predicate(l, o, r)
  }

  function SimplifiedEach(es: Exprs, negate: bool): Exprs
  {
    match es
    case Nil => Nil
    case Cons(e, t) => Cons(Simplified(e, negate), SimplifiedEach(t, negate))
  }

  lemma {:induction false} PassesSimplify(e: Expr, negate: bool)
    ensures Deduplicate(Denegate(Align(e), negate)) == Simplified(e, negate)
    decreases e
  {
    match e
    case NoExpr =>
    case Conjunction(es) => PassesSimplifyEach(es, negate);
    case Disjunction(es) => PassesSimplifyEach(es, negate);
    case Negation(f) =>
      if f.Negation? {
        PassesSimplify(f.negated, negate);
      } else {
        PassesSimplify(f, !negate);
      }
    case Predicate(_, _, _) =>
  }

  lemma {:induction false} PassesSimplifyEach(es: Exprs, negate: bool)
    ensures var ds := DenegateEach(AlignEach(es), negate);
            && Deduplicated(ds) == SimplifiedEach(es, negate)
            && DeduplicateEach(ds, Nil) == Firsts(SimplifiedEach(es, negate))
    decreases es
  {
    if es.Cons? {
      PassesSimplify(es.head, negate);
      PassesSimplifyEach(es.tail, negate);
    }
    var ds := DenegateEach(AlignEach(es), negate);
    DeduplicateFirsts(ds, Nil);
    MinusTwice(Firsts(Deduplicated(ds)), NoExpr, Nil);
  }

  /** All five passes: the one pass between two hoists. */
  lemma NormalizeSimplifies(e: Expr)
    ensures Normalize(e) == Hoist(Simplified(Hoist(e), false))
  {
    hide Hoist, Simplified, Align, Denegate, Deduplicate;
    PassesSimplify(Hoist(e), false);
  }

  /** The operands of every connective are pairwise different. */
  predicate DistinctBelow(e: Expr)
  {
    match e
    case NoExpr => true
    case Conjunction(es) => Distinct(es) && DistinctBelowEach(es)
    case Disjunction(es) => Distinct(es) && DistinctBelowEach(es)
    case Negation(f) => DistinctBelow(f)
    case Predicate(_, _, _) => true
  }

  predicate DistinctBelowEach(es: Exprs)
  {
    es.Cons? ==> DistinctBelow(es.head) && DistinctBelowEach(es.tail)
  }

  /** What an expression, or its negation, becomes once negations are pushed down: a
      conjunction, or a disjunction. */
  predicate Becomes(e: Expr, conjunction: bool)
  {
    match e
    case NoExpr => false
    case Conjunction(_) => conjunction
    case Disjunction(_) => !conjunction
    case Negation(f) => Becomes(f, !conjunction)
    case Predicate(_, _, _) => false
  }

  predicate NoneBecomes(es: Exprs, conjunction: bool)
  {
    es.Cons? ==> !Becomes(es.head, conjunction) && NoneBecomes(es.tail, conjunction)
  }

  /** No connective is directly below what becomes its own kind. */
  predicate Alternates(e: Expr)
  {
    match e
    case NoExpr => true
    case Conjunction(es) => NoneBecomes(es, true) && AlternatesEach(es)
    case Disjunction(es) => NoneBecomes(es, false) && AlternatesEach(es)
    case Negation(f) => Alternates(f)
    case Predicate(_, _, _) => true
  }

  predicate AlternatesEach(es: Exprs)
  {
    es.Cons? ==> Alternates(es.head) && AlternatesEach(es.tail)
  }

  /** Predicates under any number of negations. */
  predicate Literal(e: Expr)
  {
    e.Predicate? || (e.Negation? && Literal(e.negated))
  }

  predicate Literals(es: Exprs)
  {
    es.Cons? ==> Literal(es.head) && Literals(es.tail)
  }

  lemma {:induction false} MinusKeeps(es: Exprs, p: Expr)
    ensures var fs := Minus(es, Cons(p, Nil));
            && (UnnestedEach(es) ==> UnnestedEach(fs))
            && (DistinctBelowEach(es) ==> DistinctBelowEach(fs))
            && (NoConjunction(es) ==> NoConjunction(fs)) && (NoDisjunction(es) ==> NoDisjunction(fs))
            && (NoSingles(p) && NoSinglesEach(fs) ==> NoSinglesEach(es)) && (Literals(es) ==> Literals(fs))
  {
    if es.Cons? {
      MinusKeeps(es.tail, p);
      assert Member(es.head, Cons(p, Nil)) <==> es.head == p;
    }
  }

  lemma {:induction false} FirstsKeep(es: Exprs)
    ensures UnnestedEach(es) ==> UnnestedEach(Firsts(es))
    ensures DistinctBelowEach(es) ==> DistinctBelowEach(Firsts(es))
    ensures NoConjunction(es) ==> NoConjunction(Firsts(es))
    ensures NoDisjunction(es) ==> NoDisjunction(Firsts(es))
    ensures NoSinglesEach(Firsts(es)) ==> NoSinglesEach(es)
    ensures Literals(es) ==> Literals(Firsts(es))
  {
    if es.Cons? {
      FirstsKeep(es.tail);
      MinusKeeps(Firsts(es.tail), es.head);
    }
  }

  /** Simplifying leaves no repeated operands, and alternating connectives as such. */
  lemma {:induction false} SimplifiedForm(e: Expr, negate: bool)
    ensures DistinctBelow(Simplified(e, negate))
    ensures Simplified(e, negate).Conjunction? == Becomes(e, !negate)
    ensures Simplified(e, negate).Disjunction? == Becomes(e, negate)
    ensures Alternates(e) ==> Unnested(Simplified(e, negate)) && Unnested(e)
    ensures NoSingles(Simplified(e, negate)) ==> NoSingles(e)
    decreases e, 0
  {
    match e
    case NoExpr =>
    case Conjunction(es) => SimplifiedListForm(es, negate);
    case Disjunction(es) => SimplifiedListForm(es, negate);
    case Negation(f) => SimplifiedForm(f, !negate);
    case Predicate(_, _, _) =>
  }

  lemma SimplifiedListForm(es: Exprs, negate: bool)
    ensures var fs := Firsts(SimplifiedEach(es, negate));
            && Distinct(fs) && DistinctBelowEach(fs)
            && (AlternatesEach(es) ==> UnnestedEach(fs) && UnnestedEach(es))
            && (NoneBecomes(es, !negate) ==> NoConjunction(fs))
            && (NoneBecomes(es, negate) ==> NoDisjunction(fs))
            && (NoSinglesEach(fs) ==> NoSinglesEach(es))
            && (Single(es) ==> Single(fs))
    ensures NoneBecomes(es, true) ==> NoConjunction(es)
    ensures NoneBecomes(es, false) ==> NoDisjunction(es)
    decreases es, 1
  {
    hide Simplified, Unnested, NoSingles, DistinctBelow, Alternates, Becomes;
    var ss := SimplifiedEach(es, negate);
    SimplifiedEachForm(es, negate);
    FirstsMeaning(ss, NoExpr);
    FirstsKeep(ss);
  }

  lemma {:induction false} SimplifiedEachForm(es: Exprs, negate: bool)
    ensures var ss := SimplifiedEach(es, negate);
            && DistinctBelowEach(ss)
            && (AlternatesEach(es) ==> UnnestedEach(ss) && UnnestedEach(es))
            && (NoneBecomes(es, !negate) ==> NoConjunction(ss))
            && (NoneBecomes(es, negate) ==> NoDisjunction(ss))
            && (NoSinglesEach(ss) ==> NoSinglesEach(es))
    ensures NoneBecomes(es, true) ==> NoConjunction(es)
    ensures NoneBecomes(es, false) ==> NoDisjunction(es)
    decreases es, 0
  {
    if es.Cons? {
      SimplifiedForm(es.head, negate);
      SimplifiedEachForm(es.tail, negate);
    }
  }

  /** If no connective is directly below what becomes its own kind, the normal form is
      exactly the simplified expression, in which no operand is repeated, if and only
      if that has no connective of a single operand left. */
  lemma NormalizeAlternating(e: Expr)
    requires Alternates(e)
    ensures Normalize(e) == Simplified(e, false) <==> NoSingles(Simplified(e, false))
    ensures DistinctBelow(Simplified(e, false))
  {
    hide Hoist, Simplified, Alternates;
    NormalizeSimplifies(e);
    SimplifiedForm(e, false);
    HoistNoSingles(Simplified(Hoist(e), false));
    if NoSingles(Simplified(e, false)) {
      HoistShrinks(e);
      HoistShrinks(Simplified(e, false));
    }
  }

  function NormalizeEach(es: Exprs): Exprs
  {
    match es
    case Nil => Nil
    case Cons(e, t) => Cons(Normalize(e), NormalizeEach(t))
  }

  lemma {:induction false} LiteralSimplified(e: Expr)
    requires Literal(e)
    ensures NoSingles(e) && Unnested(e) && Hoist(e) == e && Simplified(e, false).Predicate?
    ensures var p := Simplified(e, false); Simplified(e, true) == p.(op := Negate(p.op))
  {
    match e
    case Predicate(_, op, _) => NegateFlips(op);
    case Negation(f) =>
      LiteralSimplified(f);
      NegateFlips(Simplified(f, false).op);
  }

  lemma NegateFlips(op: RelOp)
    ensures Negate(Flip(op)) == Flip(Negate(op)) && Negate(Negate(op)) == op
  {
  }

  /** The normal form of a literal is one predicate, with the extractor on the left, and
      the operator negated if there is an odd number of negations. */
  lemma NormalizeLiteral(e: Expr)
    requires Literal(e)
    ensures Normalize(e).Predicate?
    ensures match e
            case Predicate(l, op, r) =>
              Normalize(e) == if l.Value? && !r.Value? then Predicate(r, Flip(op), l) else e
            case Negation(f) => Normalize(f).Predicate? && Normalize(e) == Normalize(f).(op := Negate(Normalize(f).op))
  {
    hide Normalize;
    LiteralSimplified(e);
    NormalizeSimplifies(e);
    if e.Negation? {
      LiteralSimplified(e.negated);
      NormalizeSimplifies(e.negated);
    }
  }

  lemma {:induction false} LiteralsSettled(es: Exprs)
    requires Literals(es)
    ensures SettledEach(es) && NoConjunction(es) && NoDisjunction(es)
    ensures NormalizeEach(es) == SimplifiedEach(es, false) && Literals(NormalizeEach(es))
  {
    if es.Cons? {
      LiteralSimplified(es.head);
      NormalizeSimplifies(es.head);
      LiteralSimplified(Simplified(es.head, false));
      LiteralsSettled(es.tail);
    }
  }

  /** The operands of a connective of literals, however many, are the first of each
      normal form; a single one stands alone. */
  lemma NormalizeLiterals(es: Exprs, p: Expr)
    requires Literals(es)
    ensures var ds := Firsts(NormalizeEach(es));
            && Normalize(Conjunction(es)) == OnlyOr(ds, Conjunction(ds))
            && Normalize(Disjunction(es)) == OnlyOr(ds, Disjunction(ds))
            && Distinct(ds) && (Member(p, ds) <==> Member(p, NormalizeEach(es)))
  {
    hide Normalize, Literals, SettledEach, NoConjunction, NoDisjunction, Member;
    var ds := Firsts(NormalizeEach(es));
    FirstsMeaning(NormalizeEach(es), p);
    LiteralsSettled(es);
    FirstsKeep(NormalizeEach(es));
    LiteralsSettled(ds);
    HoistListShrinks(es);
    HoistListShrinks(ds);
    NormalizeSimplifies(Conjunction(es));
    NormalizeSimplifies(Disjunction(es));
    if Single(es) {
      NormalizeSimplifies(es.head);
    }
  }

  function Two(a: Expr, b: Expr): Exprs
  {
    Cons(a, Cons(b, Nil))
  }

  lemma TwoHoisted(a: Expr, b: Expr)
    ensures HoistEach(Two(a, b)) == Two(Hoist(a), Hoist(b))
    ensures !a.Conjunction? && !b.Conjunction? ==> HoistConjuncts(Two(a, b)) == Two(Hoist(a), Hoist(b))
    ensures !a.Disjunction? && !b.Disjunction? ==> HoistDisjuncts(Two(a, b)) == Two(Hoist(a), Hoist(b))
    ensures !a.Conjunction? && b.Conjunction? ==> HoistConjuncts(Two(a, b)) == Cons(Hoist(a), HoistEach(b.conjuncts))
  {
    hide Hoist, Append;
    var t := Cons(b, Nil);
    assert HoistEach(t) == Cons(Hoist(b), Nil);
    assert !b.Conjunction? ==> HoistConjuncts(t) == Cons(Hoist(b), Nil);
    assert !b.Disjunction? ==> HoistDisjuncts(t) == Cons(Hoist(b), Nil);
    if b.Conjunction? {
      AppendNil(HoistEach(b.conjuncts));
      assert HoistConjuncts(t) == HoistEach(b.conjuncts);
    }
  }

  lemma TwoSimplified(a: Expr, b: Expr)
    ensures SimplifiedEach(Two(a, b), false) == Two(Simplified(a, false), Simplified(b, false))
    ensures SimplifiedEach(Cons(a, Two(a, b)), false) == Cons(Simplified(a, false), SimplifiedEach(Two(a, b), false))
    ensures Firsts(Two(a, b)) == if a == b then Cons(a, Nil) else Two(a, b)
    ensures a != b ==> Firsts(Cons(a, Two(a, b))) == Two(a, b)
  {
    hide Simplified;
    var t := Cons(b, Nil);
    assert SimplifiedEach(t, false) == Cons(Simplified(b, false), Nil);
    assert Firsts(t) == t && Member(a, Cons(a, Nil)) && (Member(b, Cons(a, Nil)) <==> a == b);
    assert Minus(t, Cons(a, Nil)) == if a == b then Nil else t;
    assert Minus(Two(a, b), Cons(a, Nil)) == Minus(t, Cons(a, Nil));
  }

  lemma Alone(p: Expr)
    requires Literal(p) && Hoist(p) == p && Simplified(p, false) == p
    ensures Normalize(Disjunction(Two(Conjunction(Two(p, p)), p))) == Disjunction(Two(p, p))
  {
    hide Normalize, HoistEach, SimplifiedEach, Firsts;
    var c := Conjunction(Two(p, p));
    NormalizeSimplifies(Disjunction(Two(c, p)));
    TwoHoisted(p, p);
    TwoSimplified(p, p);
    TwoHoisted(c, p);
    TwoSimplified(c, p);
    TwoHoisted(Conjunction(Cons(p, Nil)), p);
    TwoSimplified(Conjunction(Cons(p, Nil)), p);
    assert HoistConjuncts(Cons(p, Nil)) == Cons(p, Nil);
  }

  lemma Deep(p: Expr, q: Expr)
    requires Literal(p) && Literal(q) && p != q && Hoist(p) == p == Simplified(p, false)
        && Hoist(q) == q == Simplified(q, false)
    ensures Normalize(Conjunction(Two(p, Conjunction(Two(p, Conjunction(Two(p, q)))))))
         == Conjunction(Cons(p, Two(p, q)))
  {
    hide Normalize, HoistEach, HoistConjuncts, SimplifiedEach, Firsts;
    var c := Conjunction(Two(p, q));
    NormalizeSimplifies(Conjunction(Two(p, Conjunction(Two(p, c)))));
    TwoHoisted(p, q);
    TwoSimplified(p, q);
    TwoHoisted(p, c);
    TwoSimplified(p, c);
    TwoHoisted(p, Conjunction(Two(p, c)));
    TwoSimplified(p, Conjunction(Two(p, c)));
    assert Hoist(Conjunction(Two(p, c))) == Conjunction(Cons(p, Two(p, q)));
  }

  /** Hoisting last can bring equal operands together: one that is left alone in its
      connective, and one that was two levels down. */
  lemma RepeatedOperands(p: Expr, q: Expr)
    requires Literal(p) && Literal(q) && p != q && Normalize(p) == p && Normalize(q) == q
    ensures Normalize(Disjunction(Two(Conjunction(Two(p, p)), p))) == Disjunction(Two(p, p))
    ensures Normalize(Conjunction(Two(p, Conjunction(Two(p, Conjunction(Two(p, q)))))))
         == Conjunction(Cons(p, Two(p, q)))
  {
    hide Normalize, HoistEach, HoistConjuncts, HoistDisjuncts, SimplifiedEach, Firsts;
    LiteralSimplified(p);
    LiteralSimplified(q);
    NormalizeSimplifies(p);
    NormalizeSimplifies(q);
    Alone(p);
    Deep(p, q);
  }

  // ----- Checks through the passes

  lemma {:induction false} AppendChecked(n: bool, es: Exprs, fs: Exprs, a: Leaf, b: Leaf)
    ensures CheckedEach(n, Append(es, fs), a, b) <==> CheckedEach(n, es, a, b) && CheckedEach(n, fs, a, b)
  {
    if es.Cons? {
      AppendChecked(n, es.tail, fs, a, b);
    }
  }

  lemma {:induction false} HoistChecked(n: bool, e: Expr, a: Leaf, b: Leaf)
    ensures Checked(n, Hoist(e), a, b) == Checked(n, e, a, b)
    decreases e
  {
    match e
    case NoExpr =>
    case Conjunction(es) => HoistListChecked(n, es, a, b);
    case Disjunction(es) => HoistListChecked(n, es, a, b);
    case Negation(f) => HoistChecked(n, f, b, a);
    case Predicate(_, _, _) =>
  }

  lemma {:induction false} HoistListChecked(n: bool, es: Exprs, a: Leaf, b: Leaf)
    ensures CheckedEach(n, HoistEach(es), a, b) == CheckedEach(n, es, a, b)
    ensures CheckedEach(n, HoistConjuncts(es), a, b) == CheckedEach(n, es, a, b)
    ensures CheckedEach(n, HoistDisjuncts(es), a, b) == CheckedEach(n, es, a, b)
    decreases es
  {
    if es.Cons? {
      HoistChecked(n, es.head, a, b);
      HoistListChecked(n, es.tail, a, b);
      if es.head.Conjunction? {
        HoistListChecked(n, es.head.conjuncts, a, b);
        AppendChecked(n, HoistEach(es.head.conjuncts), HoistConjuncts(es.tail), a, b);
      } else if es.head.Disjunction? {
        HoistListChecked(n, es.head.disjuncts, a, b);
        AppendChecked(n, HoistEach(es.head.disjuncts), HoistDisjuncts(es.tail), a, b);
      }
    }
  }

  function Aligned(a: Leaf): Leaf
  {
    a.(test := AlignTest(a.test))
  }

  /** A check of the aligned expression is a check of the aligned predicates. */
  lemma {:induction false} AlignChecked(n: bool, e: Expr, a: Leaf, b: Leaf)
    ensures Checked(n, Align(e), a, b) == Checked(n, e, Aligned(a), Aligned(b))
    decreases e
  {
    match e
    case NoExpr =>
    case Conjunction(es) => AlignEachChecked(n, es, a, b);
    case Disjunction(es) => AlignEachChecked(n, es, a, b);
    case Negation(f) => AlignChecked(n, f, b, a);
    case Predicate(_, _, _) =>
  }

  lemma {:induction false} AlignEachChecked(n: bool, es: Exprs, a: Leaf, b: Leaf)
    ensures CheckedEach(n, AlignEach(es), a, b) == CheckedEach(n, es, Aligned(a), Aligned(b))
    decreases es
  {
    if es.Cons? {
      AlignChecked(n, es.head, a, b);
      AlignEachChecked(n, es.tail, a, b);
    }
  }

  function NegatedIf(a: Leaf, negate: bool): Leaf
  {
    if negate then a.(test := (l, op, r) => a.test(l, Negate(op), r)) else a
  }

  /** Denegating removes every negation; a check of the result is a check of the
      predicates with the operators that they get. */
  lemma {:induction false} DenegateChecked(e: Expr, negate: bool, a: Leaf)
    ensures Checked(false, Denegate(e, negate), a, a) == Checked(true, e, NegatedIf(a, negate), NegatedIf(a, !negate))
    decreases e
  {
    match e
    case NoExpr =>
    case Conjunction(es) => DenegateEachChecked(es, negate, a);
    case Disjunction(es) => DenegateEachChecked(es, negate, a);
    case Negation(f) =>
      if f.Negation? {
        DenegateChecked(f.negated, negate, a);
      } else {
        DenegateChecked(f, !negate, a);
      }
    case Predicate(_, _, _) =>
  }

  lemma {:induction false} DenegateEachChecked(es: Exprs, negate: bool, a: Leaf)
    ensures CheckedEach(false, DenegateEach(es, negate), a, a)
         == CheckedEach(true, es, NegatedIf(a, negate), NegatedIf(a, !negate))
    decreases es
  {
    if es.Cons? {
      DenegateChecked(es.head, negate, a);
      DenegateEachChecked(es.tail, negate, a);
    }
  }

  lemma {:induction false} DeduplicateChecked(e: Expr, a: Leaf)
    requires Positive(e)
    ensures Checked(false, Deduplicate(e), a, a) == Checked(false, e, a, a)
    decreases e
  {
    match e
    case NoExpr =>
    case Conjunction(es) => DeduplicateEachChecked(es, Nil, a);
    case Disjunction(es) => DeduplicateEachChecked(es, Nil, a);
    case Predicate(_, _, _) =>
  }

  lemma {:induction false} DeduplicateEachChecked(es: Exprs, result: Exprs, a: Leaf)
    requires PositiveEach(es)
    ensures CheckedEach(false, DeduplicateEach(es, result), a, a)
       <==> CheckedEach(false, result, a, a) && CheckedEach(false, es, a, a)
    decreases es
  {
    if es.Cons? {
      var p := Deduplicate(es.head);
      DeduplicateChecked(es.head, a);
      if Member(p, result) {
        MemberChecked(p, result, a);
        DeduplicateEachChecked(es.tail, result, a);
      } else {
        AppendChecked(false, result, Cons(p, Nil), a, a);
        DeduplicateEachChecked(es.tail, Append(result, Cons(p, Nil)), a);
      }
    }
  }

  lemma {:induction false} MemberChecked(e: Expr, es: Exprs, a: Leaf)
    requires Member(e, es)
    ensures CheckedEach(false, es, a, a) ==> Checked(false, e, a, a)
  {
    if es.head != e {
      MemberChecked(e, es.tail, a);
    }
  }

  ghost predicate Weaker(a: Leaf, a': Leaf)
  {
    (a.nulls ==> a'.nulls) && forall l, op, r :: a.test(l, op, r) ==> a'.test(l, op, r)
  }

  /** What passes a check passes a weaker one. */
  lemma {:induction false} CheckedWeaker(n: bool, e: Expr, a: Leaf, b: Leaf, n': bool, a': Leaf, b': Leaf)
    requires Checked(n, e, a, b) && (n ==> n') && Weaker(a, a') && Weaker(b, b')
    ensures Checked(n', e, a', b')
    decreases e
  {
    match e
    case NoExpr =>
    case Conjunction(es) => CheckedEachWeaker(n, es, a, b, n', a', b');
    case Disjunction(es) => CheckedEachWeaker(n, es, a, b, n', a', b');
    case Negation(f) => CheckedWeaker(n, f, b, a, n', b', a');
    case Predicate(_, _, _) =>
  }

  lemma {:induction false} CheckedEachWeaker(n: bool, es: Exprs, a: Leaf, b: Leaf, n': bool, a': Leaf, b': Leaf)
    requires CheckedEach(n, es, a, b) && (n ==> n') && Weaker(a, a') && Weaker(b, b')
    ensures CheckedEach(n', es, a', b')
    decreases es
  {
    if es.Cons? {
      CheckedWeaker(n, es.head, a, b, n', a', b');
      CheckedEachWeaker(n, es.tail, a, b, n', a', b');
    }
  }

  function Both(a: Leaf, b: Leaf): Leaf
  {
    Leaf(a.nulls && b.nulls, (l, op, r) => a.test(l, op, r) && b.test(l, op, r))
  }

  lemma {:induction false} BothChecked(e: Expr, a: Leaf, b: Leaf, a': Leaf, b': Leaf)
    ensures Checked(true, e, Both(a, a'), Both(b, b')) <==> Checked(true, e, a, b) && Checked(true, e, a', b')
    decreases e
  {
    match e
    case NoExpr =>
    case Conjunction(es) => BothCheckedEach(es, a, b, a', b');
    case Disjunction(es) => BothCheckedEach(es, a, b, a', b');
    case Negation(f) => BothChecked(f, b, a, b', a');
    case Predicate(_, _, _) =>
  }

  lemma {:induction false} BothCheckedEach(es: Exprs, a: Leaf, b: Leaf, a': Leaf, b': Leaf)
    ensures CheckedEach(true, es, Both(a, a'), Both(b, b'))
        <==> CheckedEach(true, es, a, b) && CheckedEach(true, es, a', b')
    decreases es
  {
    if es.Cons? {
      BothChecked(es.head, a, b, a', b');
      BothCheckedEach(es.tail, a, b, a', b');
    }
  }

  lemma {:induction false} PositiveNulls(e: Expr)
    requires Positive(e)
    ensures NoNulls(e) == Checked(false, e, NO_NULL, NO_NULL)
  {
    match e
    case NoExpr =>
    case Conjunction(es) => PositiveEachNulls(es);
    case Disjunction(es) => PositiveEachNulls(es);
    case Predicate(_, _, _) =>
  }

  lemma {:induction false} PositiveEachNulls(es: Exprs)
    requires PositiveEach(es)
    ensures CheckedEach(true, es, NO_NULL, NO_NULL) == CheckedEach(false, es, NO_NULL, NO_NULL)
  {
    if es.Cons? {
      PositiveNulls(es.head);
      PositiveEachNulls(es.tail);
    }
  }

  lemma {:induction false} AlwaysChecked(e: Expr, a: Leaf, b: Leaf)
    requires Weaker(ANY, a) && Weaker(ANY, b)
    ensures Checked(true, e, a, b)
    decreases e
  {
    match e
    case NoExpr =>
    case Conjunction(es) => AlwaysCheckedEach(es, a, b);
    case Disjunction(es) => AlwaysCheckedEach(es, a, b);
    case Negation(f) => AlwaysChecked(f, b, a);
    case Predicate(l, op, r) => assert AnyTest(l, op, r);
  }

  lemma {:induction false} AlwaysCheckedEach(es: Exprs, a: Leaf, b: Leaf)
    requires Weaker(ANY, a) && Weaker(ANY, b)
    ensures CheckedEach(true, es, a, b)
    decreases es
  {
    if es.Cons? {
      AlwaysChecked(es.head, a, b);
      AlwaysCheckedEach(es.tail, a, b);
    }
  }

  lemma {:induction false} ValidNoNulls(check: (Operand, RelOp, Operand) -> bool, e: Expr)
    requires Validates(check, e)
    ensures NoNulls(e)
  {
    match e
    case Conjunction(es) => ValidEachNoNulls(check, es);
    case Disjunction(es) => ValidEachNoNulls(check, es);
    case Negation(f) => ValidNoNulls(check, f);
    case Predicate(_, _, _) =>
  }

  lemma {:induction false} ValidEachNoNulls(check: (Operand, RelOp, Operand) -> bool, es: Exprs)
    requires ValidatesEach(check, es)
    ensures CheckedEach(true, es, NO_NULL, NO_NULL)
  {
    if es.Cons? {
      ValidNoNulls(check, es.head);
      ValidEachNoNulls(check, es.tail);
    }
  }

  /** All predicates pass these checks. */
  lemma AnyPredicate()
    ensures Weaker(ANY, NegatedIf(ANY, true))
    ensures Weaker(ANY, Aligned(ALIGNED)) && Weaker(ANY, Aligned(NegatedIf(ALIGNED, true)))
    ensures Weaker(NO_NULL, Aligned(NO_NULL)) && Weaker(NO_NULL, Aligned(NegatedIf(NO_NULL, true)))
  {
    forall l, op, r
      ensures NegatedIf(ANY, true).test(l, op, r) && Aligned(ALIGNED).test(l, op, r)
      ensures Aligned(NO_NULL).test(l, op, r)
      ensures Aligned(NegatedIf(ALIGNED, true)).test(l, op, r) && Aligned(NegatedIf(NO_NULL, true)).test(l, op, r)
    {
      assert ANY.test(l, Negate(op), r) && ANY.test(r, Negate(Flip(op)), l) && ANY.test(r, Flip(op), l);
      assert NO_NULL.test(l, op, r) && NO_NULL.test(r, Flip(op), l);
      assert ALIGNED.test(l, op, r) || ALIGNED.test(r, Flip(op), l);
      assert NegatedIf(ALIGNED, true).test(l, op, r) == ALIGNED.test(l, Negate(op), r);
      assert NegatedIf(ALIGNED, true).test(r, Flip(op), l) == ALIGNED.test(r, Negate(Flip(op)), l);
      assert NegatedIf(NO_NULL, true).test(l, op, r) && NegatedIf(NO_NULL, true).test(r, Flip(op), l);
    }
  }

  /** The last three passes. */
  lemma PassesChecked(e: Expr, a: Leaf)
    ensures var d := Denegate(e, false);
            && Positive(d)
            && Checked(false, Hoist(Deduplicate(d)), a, a) == Checked(true, e, a, NegatedIf(a, true))
  {
    var d := Denegate(e, false);
    AnyPredicate();
    AlwaysChecked(e, ANY, NegatedIf(ANY, true));
    DenegateChecked(e, false, ANY);
    DenegateChecked(e, false, a);
    DeduplicateChecked(d, a);
    HoistChecked(false, Deduplicate(d), a, a);
  }

  /** All passes: a check of the normal form is a check of the predicates that it
      gets. */
  lemma NormalizeChecked(e: Expr, a: Leaf)
    ensures Checked(false, Normalize(e), a, a) == Checked(true, e, Aligned(a), Aligned(NegatedIf(a, true)))
  {
    var h := Hoist(e);
    HoistChecked(true, e, Aligned(a), Aligned(NegatedIf(a, true)));
    AlignChecked(true, h, a, NegatedIf(a, true));
    PassesChecked(Align(h), a);
  }

  // ----- Main results

  /** Where null leaves cannot stand, their value does not matter. */
  lemma {:induction false} TruthNulls(v: Test, e: Expr, a: Leaf, b: Leaf, even: bool, odd: bool, even': bool,
                                      odd': bool)
    requires Checked(true, e, a, b) && (a.nulls ==> even == even') && (b.nulls ==> odd == odd')
    ensures Truth(v, e, even, odd) == Truth(v, e, even', odd')
    decreases e
  {
    match e
    case NoExpr =>
    case Conjunction(es) => TruthEachNulls(v, es, a, b, even, odd, even', odd');
    case Disjunction(es) => TruthEachNulls(v, es, a, b, even, odd, even', odd');
    case Negation(f) => TruthNulls(v, f, b, a, odd, even, odd', even');
    case Predicate(_, _, _) =>
  }

  lemma {:induction false} TruthEachNulls(v: Test, es: Exprs, a: Leaf, b: Leaf,
                                          even: bool, odd: bool, even': bool, odd': bool)
    requires CheckedEach(true, es, a, b) && (a.nulls ==> even == even') && (b.nulls ==> odd == odd')
    ensures TruthAll(v, es, even, odd) == TruthAll(v, es, even', odd')
    ensures TruthAny(v, es, even, odd) == TruthAny(v, es, even', odd')
    decreases es
  {
    if es.Cons? {
      TruthNulls(v, es.head, a, b, even, odd, even', odd');
      TruthEachNulls(v, es.tail, a, b, even, odd, even', odd');
    }
  }

  /** What normalization means for any truth of predicates, as long as it respects
      flipping, and negating where a predicate is negated: the result holds exactly
      when the input holds with its null leaves below an odd number of negations read
      as true. */
  lemma TruthNormalized(v: Test, e: Expr)
    requires Checked(true, e, Leaf(true, Flips(v)), Leaf(true, Respects(v)))
    ensures Truth(v, Normalize(e), false, false) == Truth(v, e, false, true)
  {
    var flips, respects := Leaf(true, Flips(v)), Leaf(true, Respects(v));
    var h := Hoist(e);
    var a := Align(h);
    var d := Denegate(a, false);
    forall l, op, r ensures respects.test(l, op, r) ==> flips.test(l, op, r) && Aligned(Negates(v, true)).test(l, op, r)
                    ensures Aligned(Negates(v, false)).test(l, op, r) {
      RespectsMeans(v, l, op, r);
      assert ANY.test(l, op, r) && ANY.test(r, Flip(op), l);
    }
    HoistMeaning(v, e, false, true);
    HoistChecked(true, e, flips, respects);
    CheckedWeaker(true, h, flips, respects, true, flips, flips);
    AlignMeaning(v, h, false, true);
    CheckedWeaker(true, h, flips, respects, true, Aligned(Negates(v, false)), Aligned(Negates(v, true)));
    AlignChecked(true, h, Negates(v, false), Negates(v, true));
    DenegateMeaning(v, a, false, false);
    PassesChecked(a, ANY);
    DeduplicateMeaning(v, d, false, false);
    HoistMeaning(v, Deduplicate(d), false, false);
  }

  /** The reference meaning respects both. */
  lemma EnvRespects(env: Env)
    ensures Weaker(ANY, Leaf(true, Flips(EnvTest(env)))) && Weaker(ANY, Leaf(true, Respects(EnvTest(env))))
  {
    hide Evaluate;
    forall l, op, r ensures Flips(EnvTest(env))(l, op, r) && Respects(EnvTest(env))(l, op, r) {
      RespectsMeans(EnvTest(env), l, op, r);
      OperatorMeaning(env.lib, OperandData(env, l), op, OperandData(env, r));
      OperatorMeaning(env.lib, OperandData(env, r), Flip(op), OperandData(env, l));
    }
  }

  /** So, for every expression: its normal form holds exactly when it holds with
      null leaves below an odd number of negations read as true. */
  lemma NormalizeTruth(env: Env, e: Expr)
    ensures Holds(env, Normalize(e)) == Truth(EnvTest(env), e, false, true)
  {
    EnvRespects(env);
    AlwaysChecked(e, Leaf(true, Flips(EnvTest(env))), Leaf(true, Respects(EnvTest(env))));
    TruthNormalized(EnvTest(env), e);
  }

  /** Normalization keeps the meaning under every assignment as long as no null
      leaf is below an odd number of negations. */
  lemma NormalizeMeaning(env: Env, e: Expr)
    requires NoOddNulls(e)
    ensures Holds(env, Normalize(e)) == Holds(env, e)
  {
    NormalizeTruth(env, e);
    TruthNulls(EnvTest(env), e, ANY, NO_NULL, false, true, false, false);
  }

  /** Below a negation, a null leaf changes the meaning. */
  lemma NullBelowNegation(env: Env)
    ensures Holds(env, Negation(NoExpr)) && !Holds(env, Normalize(Negation(NoExpr)))
  {
  }

  /** For any truth of predicates: an expression has the truth of its normal form if
      its predicates respect flipping, and those below an odd number of negations also
      negating, where no null leaf may be. */
  lemma SameTruth(v: Test, e: Expr)
    requires Checked(true, e, Leaf(true, Flips(v)), Leaf(false, Respects(v)))
    ensures Truth(v, Normalize(e), false, false) == Truth(v, e, false, false)
  {
    var flips, respects := Leaf(true, Flips(v)), Leaf(false, Respects(v));
    CheckedWeaker(true, e, flips, respects, true, flips, Leaf(true, Respects(v)));
    TruthNormalized(v, e);
    TruthNulls(v, e, flips, respects, false, true, false, false);
  }

  /** All predicates are in a set, and no null leaf is below an odd number of
      negations. */
  predicate Uses(s: Test, e: Expr)
  {
    Checked(true, e, Leaf(true, s), Leaf(false, s))
  }

  predicate Agrees(v: Test, s: Test, e: Expr)
  {
    Uses(s, e) ==> Truth(v, Normalize(e), false, false) == Truth(v, e, false, false)
  }

  /** And this is exact: all expressions over a set of predicates have the truth of
      their normal forms if and only if these predicates respect both. */
  lemma SameTruthExactly(v: Test, s: Test)
    ensures (forall e :: Agrees(v, s, e)) <==> forall l, op, r :: s(l, op, r) ==> Respects(v)(l, op, r)
  {
    if forall l, op, r :: s(l, op, r) ==> Respects(v)(l, op, r) {
      forall e ensures Agrees(v, s, e) {
        if Uses(s, e) {
          CheckedWeaker(true, e, Leaf(true, s), Leaf(false, s), true, Leaf(true, Flips(v)), Leaf(false, Respects(v)));
          SameTruth(v, e);
        }
      }
    }
    if forall e :: Agrees(v, s, e) {
      forall l, op, r | s(l, op, r) ensures Respects(v)(l, op, r) {
        var p := Predicate(l, op, r);
        assert Normalize(p) == Align(p) && Normalize(Negation(p)) == Denegate(Align(p), true);
        assert Agrees(v, s, p) && Agrees(v, s, Negation(p));
        assert Uses(s, p) && Uses(s, Negation(p));
        RespectsMeans(v, l, op, r);
      }
    }
  }

  /** No negation, no misaligned predicate and no connective of a single operand
      survives; in particular the deduplication step never sees a negation. No operand
      is repeated either before connectives are merged for the last time. */
  lemma NormalizeForm(e: Expr)
    ensures NormalForm(Normalize(e)) && NoSingles(Normalize(e))
    ensures Normalize(e) == Hoist(Simplified(Hoist(e), false)) && DistinctBelow(Simplified(Hoist(e), false))
    ensures Positive(Denegate(Align(Hoist(e)), false))
  {
    AnyPredicate();
    AlwaysChecked(e, Aligned(ALIGNED), Aligned(NegatedIf(ALIGNED, true)));
    NormalizeChecked(e, ALIGNED);
    NormalizeSimplifies(e);
    SimplifiedForm(Hoist(e), false);
    PassesChecked(Align(Hoist(e)), ALIGNED);
    HoistNoSingles(Deduplicate(Denegate(Align(Hoist(e)), false)));
  }

  /** Normalization neither loses nor makes null leaves. */
  lemma NormalizeNulls(e: Expr)
    ensures NoNulls(Normalize(e)) == NoNulls(e)
  {
    var a, b := Aligned(NO_NULL), Aligned(NegatedIf(NO_NULL, true));
    NormalizeChecked(e, NO_NULL);
    AnyPredicate();
    if NoNulls(e) {
      CheckedWeaker(true, e, NO_NULL, NO_NULL, true, a, b);
    }
    if Checked(true, e, a, b) {
      CheckedWeaker(true, e, a, b, true, NO_NULL, NO_NULL);
    }
    NormalizeForm(e);
    CheckedWeaker(false, Normalize(e), ALIGNED, ALIGNED, false, ANY, ANY);
    PositiveNulls(Normalize(e));
  }

  /** Aligned operands stay together, whatever becomes of their operator. */
  lemma NormalizeLeaves(ok: (Operand, Operand) -> bool, e: Expr)
    requires Leaves(ok, e) && forall l, r :: ok(l, r) && l.Value? ==> r.Value?
    ensures Leaves(ok, Normalize(e))
  {
    CheckedWeaker(true, e, Pair(ok), Pair(ok), true, Aligned(Pair(ok)), Aligned(NegatedIf(Pair(ok), true)));
    NormalizeChecked(e, Pair(ok));
    CheckedWeaker(false, Normalize(e), Pair(ok), Pair(ok), true, Pair(ok), Pair(ok));
  }

  /** What passes validation means the same as the input under every assignment,
      is in normal form, and had no null leaves to begin with. */
  lemma ValidatedMeaning(check: (Operand, RelOp, Operand) -> bool, env: Env, e: Expr)
    requires NormalizeAndValidate(check, e).Some?
    ensures var n := NormalizeAndValidate(check, e).value;
            NormalForm(n) && NoNulls(e) && Holds(env, n) == Holds(env, e)
  {
    ValidNoNulls(check, Normalize(e));
    NormalizeNulls(e);
    CheckedWeaker(true, e, NO_NULL, NO_NULL, true, ANY, NO_NULL);
    NormalizeMeaning(env, e);
    NormalizeForm(e);
  }

  /** An expression passes validation if and only if it has no null leaf and every
      predicate passes its check: aligned, and with its operator negated below an odd
      number of negations. */
  lemma ValidatedExactly(check: (Operand, RelOp, Operand) -> bool, e: Expr)
    ensures var passes, n := Leaf(false, check), NormalizeAndValidate(check, e);
            n.Some? <==> Checked(true, e, Aligned(passes), Aligned(NegatedIf(passes, true)))
    ensures NormalizeAndValidate(check, e).Some? ==> NormalizeAndValidate(check, e).value == Normalize(e)
  {
    hide Normalize;
    NormalizeForm(e);
    ValidatesChecked(check, Normalize(e));
    NormalizeChecked(e, Leaf(false, check));
  }

  lemma {:induction false} ValidatesChecked(check: (Operand, RelOp, Operand) -> bool, e: Expr)
    requires NormalForm(e)
    ensures Validates(check, e) == Checked(false, e, Leaf(false, check), Leaf(false, check))
  {
    match e
    case NoExpr =>
    case Conjunction(es) => ValidatesCheckedEach(check, es);
    case Disjunction(es) => ValidatesCheckedEach(check, es);
    case Predicate(_, _, _) =>
  }

  lemma {:induction false} ValidatesCheckedEach(check: (Operand, RelOp, Operand) -> bool, es: Exprs)
    requires CheckedEach(false, es, ALIGNED, ALIGNED)
    ensures ValidatesEach(check, es) == CheckedEach(false, es, Leaf(false, check), Leaf(false, check))
  {
    if es.Cons? {
      ValidatesChecked(check, es.head);
      ValidatesCheckedEach(check, es.tail);
    }
  }
}
