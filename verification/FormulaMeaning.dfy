/** What a conversion formula stands for as a number, and that evaluating it gives that number. */
module FormulaMeaning {
  import opened Numbers
  import opened Order
  import opened Units = Formula

  /** The operators and functions on numbers; None where one has no result. */
  datatype Reals = Reals(op: (BinOper, real, real) -> Option<real>, fn: (string, seq<real>) -> Option<real>)

  /** The number a formula stands for when its value is `x`: None where an operation in it has no result. */
  function Meaning(n: Node, x: real, m: Reals): Option<real>
    decreases Size(n), 0
  {
    match n
    case Expression(b) => Meaning(b, x, m)
    case Constant(Whole(k)) => Some(k as real)
    case Constant(Decimal(v)) => Some(v)
    case Constant(Flag(b)) => Some(if b then 1.0 else 0.0)
    case Name("__value__", _) => Some(x)
    case Name("pi", _) => Some(3.141592653589793)
    case Name("e", _) => Some(2.718281828459045)
    case UnaryOp(op, y) =>
      var v := Meaning(y, x, m);
      if v.Some? && op.USub? then Some(-v.value) else v
    case BinOp(l, op, r) =>
      var a, b := Meaning(l, x, m), Meaning(r, x, m);
      if a.None? || b.None? then None else m.op(op, a.value, b.value)
    case Call(Name(id, _), args, _) =>
      var vs := Meanings(args, x, m);
      if vs.None? then None else m.fn(id, vs.value)
    case _ => None
  }

  function Meanings(ns: seq<Node>, x: real, m: Reals): Option<seq<real>>
    decreases SizeAll(ns), 1
  {
    if ns == [] then Some([]) else
      var v, vs := Meaning(ns[0], x, m), Meanings(ns[1..], x, m);
      if v.None? || vs.None? then None else Some([v.value] + vs.value)
  }

  /** The value is a number, and which. */
  predicate Stands(v: Value, x: real) {
    match v
    case Int(n) => n as real == x
    case Float(y) => y == x
    case _ => false
  }

  ghost predicate AllStand(vs: seq<Value>, xs: seq<real>) {
    |vs| == |xs| && forall i :: 0 <= i < |vs| ==> Stands(vs[i], xs[i])
  }

  ghost predicate Same(v: Option<Value>, x: Option<real>) {
    (v.None? <==> x.None?) && (v.Some? ==> Stands(v.value, x.value))
  }

  /** A power is a real number for any base when its exponent is whole. */
  predicate WholePower(op: BinOper, b: Value) {
    op.Pow? ==> b.Int? || (b.Float? && Integral(b.v))
  }

  /** On real numbers the evaluator's operators and functions are those of `m`. */
  ghost predicate Agrees(e: Env, m: Reals) {
    && (forall op, a, b, x, y :: Stands(a, x) && Stands(b, y) && WholePower(op, b) ==>
          Same(e.arith(op, a, b), m.op(op, x, y)))
    && (forall id, vs, xs :: AllStand(vs, xs) && Arity(id, |vs|) ==> Same(e.lib(id, vs), m.fn(id, xs)))
  }

  /** Evaluation ends in the number, or in an arithmetic failure where there is none. */
  ghost predicate EndsIn(r: Result<Value, Failure>, x: Option<real>) {
    match x
    case Some(v) => r.Ok? && Stands(r.value, v)
    case None => r == Err(Arithmetic)
  }

  ghost predicate AllGive(r: Result<seq<Value>, Failure>, xs: Option<seq<real>>) {
    match xs
    case Some(vs) => r.Ok? && AllStand(r.value, vs)
    case None => r == Err(Arithmetic)
  }

  lemma OperatorGives(op: BinOper, a: Value, b: Value, x: real, y: real, e: Env, m: Reals)
    requires Agrees(e, m) && !op.OtherBin? && Stands(a, x) && Stands(b, y) && WholePower(op, b)
    requires op.Pow? ==> Guarded(b)
    ensures EndsIn(Combine(op, a, b, e), m.op(op, x, y))
  {
    assert Same(e.arith(op, a, b), m.op(op, x, y));
  }

  lemma FunctionGives(id: string, vs: seq<Value>, xs: seq<real>, e: Env, m: Reals)
    requires Agrees(e, m) && Arity(id, |vs|) && AllStand(vs, xs)
    ensures !CallTyping(id, KindsOf(vs)).Clashes? && EndsIn(Computed(e.lib(id, vs)), m.fn(id, xs))
  {
    assert Same(e.lib(id, vs), m.fn(id, xs));
    var ks := KindsOf(vs);
    assert forall i :: 0 <= i < |ks| ==> Stands(vs[i], xs[i]) && Real(ks[i]);
  }

  lemma {:induction false} ArgumentsGive(ns: seq<Node>, e: Env, m: Reals)
    requires forall i :: 0 <= i < |ns| ==> EndsIn(Eval(ns[i], e), Meaning(ns[i], e.value, m))
    ensures AllGive(EvalAll(ns, e), Meanings(ns, e.value, m))
  {
    hide Eval, Meaning;
    if ns != [] {
      assert forall i :: 0 <= i < |ns| - 1 ==> ns[1..][i] == ns[i + 1];
      ArgumentsGive(ns[1..], e, m);
    }
  }

  /**
   * Evaluating a formula with numeric constants, the right numbers of arguments and whole exponents gives the number
   * it stands for, and fails in arithmetic exactly when it stands for none.
   */
  lemma {:induction false} EvaluatesToMeaning(n: Node, e: Env, m: Reals)
    requires Formula(n) && Parsed(n) && Numerical(n) && Agrees(e, m)
    ensures EndsIn(Eval(n, e), Meaning(n, e.value, m))
    decreases Size(n)
  {
    hide Agrees;
    match n
    case Expression(b) => EvaluatesToMeaning(b, e, m);
    case UnaryOp(op, x) => EvaluatesToMeaning(x, e, m);
    case BinOp(l, op, r) =>
      EvaluatesToMeaning(l, e, m);
      EvaluatesToMeaning(r, e, m);
      if op.Pow? {
        ExponentValue(r, e);
      }
      var a, b := Eval(l, e), Eval(r, e);
      if a.Ok? && b.Ok? {
        OperatorGives(op, a.value, b.value, Meaning(l, e.value, m).value, Meaning(r, e.value, m).value, e, m);
      }
    case Call(f, args, keywords) =>
      forall i | 0 <= i < |args|
        ensures EndsIn(Eval(args[i], e), Meaning(args[i], e.value, m))
      {
        MemberSize(args, i);
        EvaluatesToMeaning(args[i], e, m);
      }
      ArgumentsGive(args, e, m);
      if EvalAll(args, e).Ok? {
        FunctionGives(f.id, EvalAll(args, e).value, Meanings(args, e.value, m).value, e, m);
      }
    case _ =>
  }

  /**
   * So converting with such a formula returns the number it stands for, raises the documented error where there is
   * none, and overflows only where that number is beyond the floats.
   */
  lemma ConvertsToMeaning(tree: Node, e: Env, m: Reals)
    requires Formula(tree) && Parsed(tree) && Numerical(tree) && Agrees(e, m)
    ensures match Meaning(tree, e.value, m)
            case None => Converts(tree, e) == FormulaError
            case Some(v) =>
              || Converts(tree, e) == Returned(v)
              || (Converts(tree, e) == EscapedOverflow && !(-(FloatLimit() as real) < v < FloatLimit() as real))
  {
    hide Eval, Meaning, FloatLimit, Checked, Formula;
    AcceptsGrammar(tree);
    EvaluatesToMeaning(tree, e, m);
  }
}
