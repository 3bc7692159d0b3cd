/** The unit-conversion formula checker: two worklist passes over a syntax tree, against a recursive grammar. */
module Formula {
  import opened Numbers
  import opened Order

  const VALUE_NAME := "__value__"

  const MAX_EXPONENT := 64.0

  const ALLOWED_FUNCTIONS := {"sin", "cos", "tan", "sqrt", "abs", "log", "exp"}

  const ALLOWED_CONSTANTS: map<string, real> := map["pi" := 3.141592653589793, "e" := 2.718281828459045]

  // ---- syntax trees --------------------------------------------------------------------------

  datatype BinOper = Add | Sub | Mult | Div | Pow | Mod | OtherBin(name: string)

  datatype UnOper = USub | UAdd | OtherUn(name: string)

  /** Literals: integers, decimals, booleans, imaginary numbers, texts, and `None` or `...`. */
  datatype Literal = Whole(n: int) | Decimal(v: real) | Flag(b: bool) | Imaginary | Str(s: string) | Nothing

  /** The operator and context objects that hang below expressions. */
  datatype Mark = Bin(bin: BinOper) | Un(un: UnOper) | Ctx(load: bool)

  /** A parsed expression; `Other` is any other kind of node, such as an attribute access or a keyword argument. */
  datatype Node =
    | Expression(body: Node)
    | BinOp(left: Node, op: BinOper, right: Node)
    | UnaryOp(uop: UnOper, operand: Node)
    | Constant(value: Literal)
    | Name(id: string, load: bool)
    | Call(func: Node, args: seq<Node>, keywords: seq<Node>)
    | Leaf(mark: Mark)
    | Other(kind: string, children: seq<Node>)

  /** The direct children, in field order. */
  function Children(n: Node): seq<Node> {
    match n
    case Expression(b) => [b]
    case BinOp(l, op, r) => [l, Leaf(Bin(op)), r]
    case UnaryOp(op, x) => [Leaf(Un(op)), x]
    case Constant(_) => []
    case Name(_, load) => [Leaf(Ctx(load))]
    case Call(f, args, keywords) => [f] + args + keywords
    case Leaf(_) => []
    case Other(_, cs) => cs
  }

  function Size(n: Node): (r: nat)
    ensures r >= 1
    decreases n, 0
  {
    match n
    case Expression(b) => 1 + Size(b)
    case BinOp(l, _, r) => 2 + Size(l) + Size(r)
    case UnaryOp(_, x) => 2 + Size(x)
    case Name(_, _) => 2
    case Call(f, args, keywords) => 1 + Size(f) + SizeAll(args) + SizeAll(keywords)
    case Other(_, cs) => 1 + SizeAll(cs)
    case _ => 1
  }

  function SizeAll(ns: seq<Node>): nat
    decreases ns, 1
  {
    if ns == [] then 0 else Size(ns[0]) + SizeAll(ns[1..])
  }

  lemma {:induction false} SizeAllConcat(a: seq<Node>, b: seq<Node>)
    ensures SizeAll(a + b) == SizeAll(a) + SizeAll(b)
  {
    if a == [] {
      assert a + b == b;
    } else {
      assert (a + b)[1..] == a[1..] + b;
      SizeAllConcat(a[1..], b);
    }
  }

  lemma {:induction false} MemberSize(ns: seq<Node>, i: nat)
    requires i < |ns|
    ensures Size(ns[i]) <= SizeAll(ns)
  {
    if i > 0 {
      MemberSize(ns[1..], i - 1);
    }
  }

  lemma SizeOfChildren(n: Node)
    ensures Size(n) == 1 + SizeAll(Children(n))
  {
    hide SizeAll;
    match n
    case Expression(b) => SizeOfOne(b);
    case BinOp(l, op, r) =>
      var m := Leaf(Bin(op));
      SizeOfTwo(l, m);
      SizeOfOne(r);
      SizeAllConcat([l, m], [r]);
      assert [l, m] + [r] == Children(n);
    case UnaryOp(op, x) => SizeOfTwo(Leaf(Un(op)), x);
    case Constant(_) => SizeOfNone();
    case Name(_, load) => SizeOfOne(Leaf(Ctx(load)));
    case Call(f, args, keywords) =>
      SizeAllConcat([f] + args, keywords);
      SizeAllConcat([f], args);
      SizeOfOne(f);
    case Leaf(_) => SizeOfNone();
    case Other(_, cs) =>
  }

  lemma SizeOfNone()
    ensures SizeAll([]) == 0
  {
  }

  lemma SizeOfOne(n: Node)
    ensures SizeAll([n]) == Size(n)
  {
    assert [n][1..] == [];
  }

  lemma SizeOfTwo(a: Node, b: Node)
    ensures SizeAll([a, b]) == Size(a) + Size(b)
  {
    SizeAllConcat([a], [b]);
    assert [a] + [b] == [a, b];
    SizeOfOne(a);
    SizeOfOne(b);
  }

  // ---- walking a tree breadth first ----------------------------------------------------------

  /** An occurrence of a node: the path to it stands for its object identity. */
  datatype Place = Place(path: seq<nat>, node: Node)

  function Root(tree: Node): Place {
    Place([], tree)
  }

  function ChildPlaces(p: Place): (r: seq<Place>)
    ensures |r| == |Children(p.node)|
    ensures forall i :: 0 <= i < |r| ==> r[i] == Place(p.path + [i], Children(p.node)[i])
  {
    seq(|Children(p.node)|, i requires 0 <= i < |Children(p.node)| => Place(p.path + [i], Children(p.node)[i]))
  }

  function Nodes(places: seq<Place>): (r: seq<Node>)
    ensures |r| == |places| && forall i :: 0 <= i < |r| ==> r[i] == places[i].node
  {
    seq(|places|, i requires 0 <= i < |places| => places[i].node)
  }

  function Weight(queue: seq<Place>): nat {
    SizeAll(Nodes(queue))
  }

  lemma QueueShrinks(queue: seq<Place>)
    requires queue != []
    ensures Weight(queue[1..] + ChildPlaces(queue[0])) < Weight(queue)
  {
    var rest := queue[1..] + ChildPlaces(queue[0]);
    assert Nodes(rest) == Nodes(queue)[1..] + Children(queue[0].node);
    SizeAllConcat(Nodes(queue)[1..], Children(queue[0].node));
    SizeOfChildren(queue[0].node);
  }

  /** `ast.walk` from a queue of nodes still to visit. */
  function Walk(queue: seq<Place>): seq<Place>
    decreases Weight(queue)
  {
    if queue == [] then [] else
      QueueShrinks(queue);
      [queue[0]] + Walk(queue[1..] + ChildPlaces(queue[0]))
  }

  // ---- the checker ---------------------------------------------------------------------------

  datatype Flaw =
    | DisallowedSyntax(node: Node)
    | IndirectCall
    | UnknownFunction(id: string)
    | KeywordArguments
    | NotALiteral
    | TooLarge
    | UnknownName(id: string)

  predicate AllowedNode(n: Node) {
    match n
    case Leaf(Bin(op)) => !op.OtherBin?
    case Leaf(Un(op)) => !op.OtherUn?
    case Leaf(Ctx(load)) => load
    case Other(_, _) => false
    case _ => true
  }

  /** Booleans are integers. */
  function Magnitude(v: Literal): Option<real> {
    match v
    case Whole(n) => Some(n as real)
    case Decimal(x) => Some(x)
    case Flag(b) => Some(if b then 1.0 else 0.0)
    case _ => None
  }

  /** `_check_exponent`: a numeric literal within bounds, under at most one sign. */
  function ExponentFlaw(n: Node): Option<Flaw> {
    var e := if n.UnaryOp? && (n.uop.USub? || n.uop.UAdd?) then n.operand else n;
    if !e.Constant? || Magnitude(e.value).None? then Some(NotALiteral)
    else if Abs(Magnitude(e.value).value) > MAX_EXPONENT then Some(TooLarge)
    else None
  }

  /** What the first pass objects to at one node. */
  function NodeFlaw(n: Node): Option<Flaw> {
    if !AllowedNode(n) then Some(DisallowedSyntax(n))
    else if n.Call? then
      if !n.func.Name? then Some(IndirectCall)
      else if n.func.id !in ALLOWED_FUNCTIONS then Some(UnknownFunction(n.func.id))
      else if n.keywords != [] then Some(KeywordArguments)
      else None
    else if n.BinOp? && n.op.Pow? then ExponentFlaw(n.right)
    else None
  }

  predicate AllowedName(id: string) {
    id == VALUE_NAME || id in ALLOWED_CONSTANTS
  }

  /** What the second pass objects to: a name that is neither a callee nor allowed. */
  function NameFlaw(p: Place, callees: set<seq<nat>>): Option<Flaw> {
    if p.node.Name? && p.path !in callees && !AllowedName(p.node.id) then Some(UnknownName(p.node.id)) else None
  }

  /** The occurrences that are called. */
  function Callees(w: seq<Place>): set<seq<nat>> {
    set p | p in w && p.node.Call? :: p.path + [0]
  }

  function FirstNodeFlaw(w: seq<Place>): (r: Option<Flaw>)
    ensures r.None? <==> forall p :: p in w ==> NodeFlaw(p.node).None?
  {
    if w == [] then None else
      assert w == [w[0]] + w[1..];
      if NodeFlaw(w[0].node).Some? then NodeFlaw(w[0].node) else FirstNodeFlaw(w[1..])
  }

  function FirstNameFlaw(w: seq<Place>, callees: set<seq<nat>>): (r: Option<Flaw>)
    ensures r.None? <==> forall p :: p in w ==> NameFlaw(p, callees).None?
  {
    if w == [] then None else
      assert w == [w[0]] + w[1..];
      if NameFlaw(w[0], callees).Some? then NameFlaw(w[0], callees) else FirstNameFlaw(w[1..], callees)
  }

  /** The first violation the two passes meet, if any. */
  function Checked(tree: Node): Option<Flaw> {
    var w := Walk([Root(tree)]);
    if FirstNodeFlaw(w).Some? then FirstNodeFlaw(w) else FirstNameFlaw(w, Callees(w))
  }

  lemma CalleesStep(p: Place, w: seq<Place>)
    ensures Callees([p] + w) == (if p.node.Call? then {p.path + [0]} else {}) + Callees(w)
  {
  }

  /** `_check_ast`. */
  method CheckAst(tree: Node) returns (flaw: Option<Flaw>)
    ensures flaw == Checked(tree)
  {
    hide NodeFlaw, NameFlaw, Callees, ChildPlaces, Weight;
    var calleeNodes: set<seq<nat>> := {};
    var todo := [Root(tree)];
    ghost var w := Walk(todo);
    assert Callees([]) == {} by {
      NoCallees();
    }
    while todo != []
      invariant FirstNodeFlaw(w) == FirstNodeFlaw(Walk(todo))
      invariant Callees(w) == calleeNodes + Callees(Walk(todo))
      decreases Weight(todo)
    {
      var p := todo[0];
      QueueShrinks(todo);
      CalleesStep(p, Walk(todo[1..] + ChildPlaces(p)));
      assert Walk(todo)[1..] == Walk(todo[1..] + ChildPlaces(p));
      todo := todo[1..] + ChildPlaces(p);
      var f := NodeFlaw(p.node);
      if f.Some? {
        return f;
      }
      if p.node.Call? {
        calleeNodes := calleeNodes + {p.path + [0]};
      }
    }
    todo := [Root(tree)];
    while todo != []
      invariant FirstNameFlaw(w, calleeNodes) == FirstNameFlaw(Walk(todo), calleeNodes)
      decreases Weight(todo)
    {
      var p := todo[0];
      QueueShrinks(todo);
      assert Walk(todo)[1..] == Walk(todo[1..] + ChildPlaces(p));
      todo := todo[1..] + ChildPlaces(p);
      var f := NameFlaw(p, calleeNodes);
      if f.Some? {
        return f;
      }
    }
    return None;
  }

  lemma NoCallees()
    ensures Callees([]) == {}
  {
  }

  // ---- the grammar ---------------------------------------------------------------------------

  predicate SmallExponent(n: Node) {
    match n
    case UnaryOp(op, Constant(v)) =>
      !op.OtherUn? && Magnitude(v).Some? && -64.0 <= Magnitude(v).value <= 64.0
    case Constant(v) => Magnitude(v).Some? && -64.0 <= Magnitude(v).value <= 64.0
    case _ => false
  }

  /** The formulas, as a recursive grammar. */
  predicate Formula(n: Node)
    decreases Size(n)
  {
    SizeOfChildren(n);
    match n
    case Expression(b) => Formula(b)
    case BinOp(l, op, r) => !op.OtherBin? && Formula(l) && Formula(r) && (op.Pow? ==> SmallExponent(r))
    case UnaryOp(op, x) => !op.OtherUn? && Formula(x)
    case Constant(_) => true
    case Name(id, load) => load && id in {"__value__", "pi", "e"}
    case Call(f, args, keywords) =>
      && f.Name? && f.load && f.id in {"sin", "cos", "tan", "sqrt", "abs", "log", "exp"} && keywords == []
      && forall i :: 0 <= i < |args| ==> (MemberSize(args, i); Formula(args[i]))
    case Leaf(m) => AllowedNode(n)
    case Other(_, _) => false
  }

  // ---- the passes accept exactly the grammar -------------------------------------------------

  /** Every occurrence in the tree below `p`, itself included, is `ok`. */
  ghost predicate AllBelow(p: Place, ok: Place -> bool)
    decreases Size(p.node)
  {
    SizeOfChildren(p.node);
    && ok(p)
    && forall i :: 0 <= i < |Children(p.node)| ==> (MemberSize(Children(p.node), i); AllBelow(ChildPlaces(p)[i], ok))
  }

  /** The walk visits every occurrence below its queue and nothing else. */
  lemma {:induction false} WalkVisitsAll(queue: seq<Place>, ok: Place -> bool)
    ensures (forall p :: p in Walk(queue) ==> ok(p)) <==> (forall i :: 0 <= i < |queue| ==> AllBelow(queue[i], ok))
    decreases Weight(queue)
  {
    if queue != [] {
      hide ChildPlaces, Weight, Walk, AllBelow;
      var p := queue[0];
      var rest := queue[1..] + ChildPlaces(p);
      QueueShrinks(queue);
      WalkVisitsAll(rest, ok);
      WalkStep(queue);
      BelowStep(p, ok);
      AllOfRest(queue, ChildPlaces(p), q => AllBelow(q, ok));
      assert forall q :: q in Walk(queue) <==> q == p || q in Walk(rest);
    }
  }

  lemma AllOfRest(queue: seq<Place>, cs: seq<Place>, good: Place -> bool)
    requires queue != []
    ensures var rest := queue[1..] + cs;
            (forall i :: 0 <= i < |rest| ==> good(rest[i])) <==>
            (forall i :: 0 < i < |queue| ==> good(queue[i])) && (forall i :: 0 <= i < |cs| ==> good(cs[i]))
  {
    var rest := queue[1..] + cs;
    assert forall i :: 0 < i < |queue| ==> rest[i - 1] == queue[i];
    assert forall i :: 0 <= i < |cs| ==> rest[|queue| - 1 + i] == cs[i];
  }

  lemma WalkStep(queue: seq<Place>)
    requires queue != []
    ensures forall p :: p in Walk(queue) <==> p == queue[0] || p in Walk(queue[1..] + ChildPlaces(queue[0]))
  {
  }

  lemma BelowStep(p: Place, ok: Place -> bool)
    ensures AllBelow(p, ok) <==> ok(p) && forall i :: 0 <= i < |ChildPlaces(p)| ==> AllBelow(ChildPlaces(p)[i], ok)
  {
  }

  /** The node at the end of a path. */
  function NodeAt(tree: Node, path: seq<nat>): Option<Node> {
    if path == [] then Some(tree) else
      var up := NodeAt(tree, path[..|path| - 1]);
      var i := path[|path| - 1];
      if up.None? || i >= |Children(up.value)| then None else Some(Children(up.value)[i])
  }

  lemma {:induction false} PlacesAreNodes(tree: Node, p: Place, ok: Place -> bool)
    requires NodeAt(tree, p.path) == Some(p.node)
    requires forall q: Place :: ok(q) <==> NodeAt(tree, q.path) == Some(q.node)
    ensures AllBelow(p, ok)
    decreases Size(p.node)
  {
    hide NodeAt, Size, Children;
    SizeOfChildren(p.node);
    forall i | 0 <= i < |Children(p.node)|
      ensures AllBelow(ChildPlaces(p)[i], ok)
    {
      MemberSize(Children(p.node), i);
      ChildAt(tree, p.path, p.node, i);
      PlacesAreNodes(tree, ChildPlaces(p)[i], ok);
    }
  }

  lemma ChildAt(tree: Node, path: seq<nat>, n: Node, i: nat)
    requires NodeAt(tree, path) == Some(n) && i < |Children(n)|
    ensures NodeAt(tree, path + [i]) == Some(Children(n)[i])
  {
    assert (path + [i])[..|path + [i]| - 1] == path;
  }

  /** The callee set marks exactly the first children of the calls. */
  predicate Marks(callees: set<seq<nat>>, p: Place) {
    forall i :: 0 <= i < |Children(p.node)| ==> (p.path + [i] in callees <==> p.node.Call? && i == 0)
  }

  lemma CalleesMark(tree: Node)
    ensures var c := Callees(Walk([Root(tree)]));
            [] !in c && AllBelow(Root(tree), p => Marks(c, p))
  {
    hide AllBelow, Walk, Children;
    var w := Walk([Root(tree)]);
    var c := Callees(w);
    var isNode := (q: Place) => NodeAt(tree, q.path) == Some(q.node);
    PlacesAreNodes(tree, Root(tree), isNode);
    WalkVisitsAll([Root(tree)], isNode);
    forall p | p in w
      ensures Marks(c, p)
    {
      forall i | 0 <= i < |Children(p.node)|
        ensures p.path + [i] in c <==> p.node.Call? && i == 0
      {
        if p.path + [i] in c {
          var q :| q in w && q.node.Call? && q.path + [0] == p.path + [i];
          assert q.path == (q.path + [0])[..|q.path|] == p.path;
          assert isNode(q) && isNode(p);
        }
      }
    }
    var marks := (p: Place) => Marks(c, p);
    WalkVisitsAll([Root(tree)], marks);
    assert [Root(tree)][0] == Root(tree);
  }

  /** The grammar by context: a called name is exempt from the name rule. */
  predicate Fine(n: Node, called: bool)
    decreases Size(n)
  {
    SizeOfChildren(n);
    && NodeFlaw(n).None?
    && (n.Name? && !called ==> AllowedName(n.id))
    && forall i :: 0 <= i < |Children(n)| ==> (MemberSize(Children(n), i); Fine(Children(n)[i], n.Call? && i == 0))
  }

  lemma {:induction false} PassesAreFine(p: Place, callees: set<seq<nat>>, marks: Place -> bool, ok: Place -> bool)
    requires forall q: Place :: marks(q) <==> Marks(callees, q)
    requires forall q: Place :: ok(q) <==> NodeFlaw(q.node).None? && NameFlaw(q, callees).None?
    requires AllBelow(p, marks)
    ensures AllBelow(p, ok) <==> Fine(p.node, p.path in callees)
    decreases Size(p.node)
  {
    hide NodeFlaw, Children;
    SizeOfChildren(p.node);
    BelowStep(p, marks);
    BelowStep(p, ok);
    assert marks(p);
    forall i | 0 <= i < |Children(p.node)|
      ensures AllBelow(ChildPlaces(p)[i], ok) <==> Fine(Children(p.node)[i], p.node.Call? && i == 0)
    {
      MemberSize(Children(p.node), i);
      PassesAreFine(ChildPlaces(p)[i], callees, marks, ok);
    }
  }

  lemma {:induction false} FineIsFormula(n: Node)
    ensures Fine(n, false) <==> Formula(n)
    decreases Size(n)
  {
    SizeOfChildren(n);
    var cs := Children(n);
    forall i | 0 <= i < |cs|
      ensures Fine(cs[i], false) <==> Formula(cs[i])
    {
      MemberSize(cs, i);
      FineIsFormula(cs[i]);
    }
    match n
    case Expression(b) => assert cs[0] == b;
    case BinOp(l, op, r) =>
      assert cs[0] == l && cs[2] == r;
      BinOpIsFormula(l, op, r);
    case UnaryOp(op, x) => assert cs[0] == Leaf(Un(op)) && cs[1] == x;
    case Name(_, load) => assert cs[0] == Leaf(Ctx(load));
    case Call(f, args, keywords) =>
      assert forall i :: 0 <= i < |args| ==> args[i] == cs[i + 1];
      CallIsFormula(f, args, keywords);
    case _ =>
  }

  lemma BinOpIsFormula(l: Node, op: BinOper, r: Node)
    requires Fine(l, false) <==> Formula(l)
    requires Fine(r, false) <==> Formula(r)
    ensures Fine(BinOp(l, op, r), false) <==> Formula(BinOp(l, op, r))
  {
    var cs := Children(BinOp(l, op, r));
    assert cs[0] == l && cs[1] == Leaf(Bin(op)) && cs[2] == r;
    assert Fine(cs[1], false) <==> !op.OtherBin?;
  }

  lemma CallIsFormula(f: Node, args: seq<Node>, keywords: seq<Node>)
    requires forall i :: 0 <= i < |args| ==> (Fine(args[i], false) <==> Formula(args[i]))
    ensures Fine(Call(f, args, keywords), false) <==> Formula(Call(f, args, keywords))
  {
    var n := Call(f, args, keywords);
    assert NodeFlaw(n).None? <==> f.Name? && f.id in ALLOWED_FUNCTIONS && keywords == [];
    if NodeFlaw(n).None? {
      FineCall(f, args);
      hide Fine, NodeFlaw;
    }
  }

  lemma FineCall(f: Node, args: seq<Node>)
    requires f.Name? && f.id in ALLOWED_FUNCTIONS
    ensures Fine(Call(f, args, []), false) <==> f.load && forall i :: 0 <= i < |args| ==> Fine(args[i], false)
  {
    var n := Call(f, args, []);
    var cs := Children(n);
    CalledNameIsFine(f);
    assert NodeFlaw(n).None? && !n.Name?;
    hide NodeFlaw;
    assert |cs| == |args| + 1 && cs[0] == f;
    assert forall i :: 0 < i < |cs| ==> cs[i] == args[i - 1];
    assert forall i :: 0 <= i < |args| ==> args[i] == cs[i + 1];
    assert Fine(n, false) <==> Fine(f, true) && forall i :: 0 < i < |cs| ==> Fine(cs[i], false);
  }

  lemma CalledNameIsFine(f: Node)
    requires f.Name?
    ensures Fine(f, true) <==> f.load
  {
    var m := Children(f)[0];
    assert Children(m) == [];
    assert Fine(m, false) <==> f.load;
  }

  /** The two passes accept exactly the formulas. */
  lemma AcceptsGrammar(tree: Node)
    ensures Checked(tree).None? <==> Formula(tree)
  {
    hide NodeFlaw, NameFlaw, Walk, AllBelow, Callees, Fine, Formula;
    var w := Walk([Root(tree)]);
    var c := Callees(w);
    var ok := (p: Place) => NodeFlaw(p.node).None? && NameFlaw(p, c).None?;
    CalleesMark(tree);
    WalkVisitsAll([Root(tree)], ok);
    PassesAreFine(Root(tree), c, p => Marks(c, p), ok);
    FineIsFormula(tree);
    assert [Root(tree)][0] == Root(tree);
    assert Checked(tree).None? <==> forall p :: p in w ==> ok(p);
  }

  // ---- values and what operators make of them ------------------------------------------------

  datatype Value = Int(n: int) | Float(v: real) | Complex | Text(s: string) | Null

  /** The kind of a value, or of what is one of two kinds: a root is complex when its base is negative. */
  datatype Kind = KInt | KFloat | KComplex | KFloatOrComplex | KText | KNull

  function KindOf(v: Value): Kind {
    match v
    case Int(_) => KInt
    case Float(_) => KFloat
    case Complex => KComplex
    case Text(_) => KText
    case Null => KNull
  }

  predicate Is(v: Value, k: Kind) {
    KindOf(v) == k || (k.KFloatOrComplex? && (v.Float? || v.Complex?))
  }

  predicate Real(k: Kind) {
    k.KInt? || k.KFloat?
  }

  /** What an operation on operands of given kinds is: of one kind, a type error, or not for the kinds to say. */
  datatype Typing = Fits(kind: Kind) | Clashes | Depends

  function Wider(a: Kind, b: Kind): Kind {
    if a.KComplex? || b.KComplex? then KComplex
    else if a.KFloatOrComplex? || b.KFloatOrComplex? then KFloatOrComplex
    else if a.KFloat? || b.KFloat? then KFloat
    else KInt
  }

  predicate Numeric(k: Kind) {
    Real(k) || k.KComplex? || k.KFloatOrComplex?
  }

  predicate Integral(x: real) {
    x == x.Floor as real
  }

  /** Texts can be joined, repeated and formatted; nothing else mixes with them, and nothing at all with `None`. */
  function OperatorTyping(op: BinOper, a: Kind, b: Kind): Typing {
    if op.Mod? && a.KText? then Depends
    else if op.Add? && a.KText? && b.KText? then Fits(KText)
    else if op.Mult? && ((a.KText? && b.KInt?) || (a.KInt? && b.KText?)) then Fits(KText)
    else if !Numeric(a) || !Numeric(b) then Clashes
    else if op.Mod? && (a.KComplex? || b.KComplex?) then Clashes
    else if op.Mod? && (a.KFloatOrComplex? || b.KFloatOrComplex?) then Depends
    else if op.Pow? then Depends
    else if op.Div? && a.KInt? && b.KInt? then Fits(KFloat)
    else Fits(Wider(a, b))
  }

  /** A power by a literal: integral ones keep the reals, a fractional one leaves them when its base is negative. */
  function PowerTyping(base: Kind, exponent: Value): Typing {
    if !Numeric(base) then Clashes
    else if base.KComplex? || base.KFloatOrComplex? then Fits(base)
    else if exponent.Int? then Fits(if base.KInt? && exponent.n >= 0 then KInt else KFloat)
    else if exponent.Float? && Integral(exponent.v) then Fits(KFloat)
    else Fits(KFloatOrComplex)
  }

  predicate Negative(v: Value) {
    (v.Int? && v.n < 0) || (v.Float? && v.v < 0.0)
  }

  function CallTyping(id: string, kinds: seq<Kind>): Typing {
    if !Arity(id, |kinds|) then Clashes
    else if id == "abs" then
      if !Numeric(kinds[0]) then Clashes else Fits(if kinds[0].KInt? then KInt else KFloat)
    else if forall i :: 0 <= i < |kinds| ==> Real(kinds[i]) then Fits(KFloat)
    else if forall i :: 0 <= i < |kinds| ==> Real(kinds[i]) || kinds[i].KFloatOrComplex? then Depends
    else Clashes
  }

  function KindsOf(vs: seq<Value>): (r: seq<Kind>)
    ensures |r| == |vs| && forall i :: 0 <= i < |r| ==> r[i] == KindOf(vs[i])
  {
    seq(|vs|, i requires 0 <= i < |vs| => KindOf(vs[i]))
  }

  /** A logarithm takes an optional base, the other functions one argument. */
  predicate Arity(id: string, n: nat) {
    n == 1 || (id == "log" && n == 2)
  }

  // ---- evaluation ----------------------------------------------------------------------------

  datatype Failure = NameNotDefined | FunctionNotDefined | NotSupported | GuardTripped | TypeError | Arithmetic

  datatype Formatted = Made(text: string) | BadType | BadValue

  /**
   * The input magnitude and what is not modelled: the results of operators and functions, which may fail (division
   * by zero, domain errors, overflow, texts that get too long), text formatting, and reading a number off a text.
   */
  datatype Env = Env(value: real, arith: (BinOper, Value, Value) -> Option<Value>,
                     lib: (string, seq<Value>) -> Option<Value>,
                     format: (string, Value) -> Formatted, parse: string -> Option<real>)

  /** The typing of an operator on two values. */
  function Operates(op: BinOper, a: Value, b: Value): Typing {
    if op.Pow? then
      var t := PowerTyping(KindOf(a), b);
      if t != Fits(KFloatOrComplex) then t else Fits(if Negative(a) then KComplex else KFloat)
    else OperatorTyping(op, KindOf(a), KindOf(b))
  }

  /** Operators and functions give results of the kinds Python gives them. */
  ghost predicate Sound(e: Env) {
    && (forall op, a, b :: Operates(op, a, b).Fits? && e.arith(op, a, b).Some? ==>
          KindOf(e.arith(op, a, b).value) == Operates(op, a, b).kind)
    && (forall id, vs :: CallTyping(id, KindsOf(vs)).Fits? && e.lib(id, vs).Some? ==>
          KindOf(e.lib(id, vs).value) == CallTyping(id, KindsOf(vs)).kind)
  }

  function Computed(r: Option<Value>): Result<Value, Failure> {
    if r.None? then Err(Arithmetic) else Ok(r.value)
  }

  function ValueOf(v: Literal): Value {
    match v
    case Whole(n) => Int(n)
    case Decimal(x) => Float(x)
    case Flag(b) => Int(if b then 1 else 0)
    case Imaginary => Complex
    case Str(s) => Text(s)
    case Nothing => Null
  }

  /** Whether the guard of `_safe_pow` passes an exponent. */
  predicate Guarded(b: Value) {
    match b
    case Int(n) => Abs(n as real) <= MAX_EXPONENT
    case Float(x) => Abs(x) <= MAX_EXPONENT
    case _ => false
  }

  /** `_safe_pow` for powers, the plain operator otherwise. */
  function Combine(op: BinOper, a: Value, b: Value, e: Env): Result<Value, Failure> {
    if op.OtherBin? then Err(NotSupported)
    else if op.Pow? && !Guarded(b) then Err(GuardTripped)
    else if op.Mod? && a.Text? then
      match e.format(a.s, b)
      case Made(text) => Ok(Text(text))
      case BadType => Err(TypeError)
      case BadValue => Err(Arithmetic)
    else if Operates(op, a, b).Clashes? then Err(TypeError)
    else Computed(e.arith(op, a, b))
  }

  function Signed(op: UnOper, v: Value): Result<Value, Failure> {
    if op.OtherUn? then Err(NotSupported)
    else if !Numeric(KindOf(v)) then Err(TypeError)
    else if op.UAdd? then Ok(v)
    else
      match v
      case Int(n) => Ok(Int(-n))
      case Float(x) => Ok(Float(-x))
      case _ => Ok(v)
  }

  /** Evaluation with the whitelisted operators, names and functions only. */
  function Eval(n: Node, e: Env): Result<Value, Failure>
    decreases Size(n), 0
  {
    match n
    case Expression(b) => Eval(b, e)
    case Constant(v) => Ok(ValueOf(v))
    case Name(id, _) =>
      if id == VALUE_NAME then Ok(Float(e.value))
      else if id in ALLOWED_CONSTANTS then Ok(Float(ALLOWED_CONSTANTS[id]))
      else Err(NameNotDefined)
    case UnaryOp(op, x) =>
      var r := Eval(x, e);
      if r.Err? then r else Signed(op, r.value)
    case BinOp(l, op, r) =>
      var a := Eval(l, e);
      if a.Err? then a
      else
        var b := Eval(r, e);
        if b.Err? then b else Combine(op, a.value, b.value, e)
    case Call(f, args, keywords) =>
      if !f.Name? || keywords != [] then Err(NotSupported)
      else if f.id !in ALLOWED_FUNCTIONS then Err(FunctionNotDefined)
      else
        var vs := EvalAll(args, e);
        if vs.Err? then Err(vs.error)
        else if CallTyping(f.id, KindsOf(vs.value)).Clashes? then Err(TypeError)
        else Computed(e.lib(f.id, vs.value))
    case _ => Err(NotSupported)
  }

  function EvalAll(ns: seq<Node>, e: Env): (r: Result<seq<Value>, Failure>)
    ensures r.Ok? ==> |r.value| == |ns|
    decreases SizeAll(ns), 1
  {
    if ns == [] then Ok([]) else
      var v := Eval(ns[0], e);
      if v.Err? then Err(v.error)
      else
        var vs := EvalAll(ns[1..], e);
        if vs.Err? then vs else Ok([v.value] + vs.value)
  }

  /** Operator and context objects stand only where the parser puts them, never in an expression's place. */
  predicate Parsed(n: Node)
    decreases Size(n)
  {
    match n
    case Expression(b) => Parsed(b)
    case BinOp(l, _, r) => Parsed(l) && Parsed(r)
    case UnaryOp(_, x) => Parsed(x)
    case Call(_, args, _) => forall i :: 0 <= i < |args| ==> (MemberSize(args, i); Parsed(args[i]))
    case Leaf(_) => false
    case _ => true
  }

  // ---- typing a formula without evaluating it ------------------------------------------------

  /** The exponent a small literal stands for. */
  function Exponent(n: Node): Value {
    match n
    case UnaryOp(op, Constant(v)) =>
      var r := Signed(op, ValueOf(v));
      if r.Ok? then r.value else Null
    case Constant(v) => ValueOf(v)
    case _ => Null
  }

  /** An operation clashes if an operand does, and is left open if one is. */
  function Joint(a: Typing, b: Typing, of: (Kind, Kind) -> Typing): Typing {
    if a.Clashes? || b.Clashes? then Clashes
    else if a.Depends? || b.Depends? then Depends
    else of(a.kind, b.kind)
  }

  function SignTyping(t: Typing): Typing {
    if t.Fits? && !Numeric(t.kind) then Clashes else t
  }

  /** The typing of a formula, from its text alone. */
  function TypingOf(n: Node): Typing
    decreases Size(n), 0
  {
    match n
    case Expression(b) => TypingOf(b)
    case Constant(v) => Fits(KindOf(ValueOf(v)))
    case Name(_, _) => Fits(KFloat)
    case UnaryOp(_, x) => SignTyping(TypingOf(x))
    case BinOp(l, op, r) =>
      if op.Pow? then
        var t := TypingOf(l);
        if t.Fits? then PowerTyping(t.kind, Exponent(r)) else t
      else Joint(TypingOf(l), TypingOf(r), (a, b) => OperatorTyping(op, a, b))
    case Call(f, args, _) => if f.Name? then ArgumentsTyping(f.id, TypingsOf(args)) else Clashes
    case _ => Clashes
  }

  function TypingsOf(ns: seq<Node>): (r: seq<Typing>)
    ensures |r| == |ns|
    decreases SizeAll(ns), 1
  {
    if ns == [] then [] else [TypingOf(ns[0])] + TypingsOf(ns[1..])
  }

  function Kinds(ts: seq<Typing>): (r: seq<Kind>)
    requires forall i :: 0 <= i < |ts| ==> ts[i].Fits?
    ensures |r| == |ts| && forall i :: 0 <= i < |r| ==> r[i] == ts[i].kind
  {
    seq(|ts|, i requires 0 <= i < |ts| => ts[i].kind)
  }

  function ArgumentsTyping(id: string, ts: seq<Typing>): Typing {
    if !Arity(id, |ts|) || (exists i :: 0 <= i < |ts| && ts[i].Clashes?) then Clashes
    else if exists i :: 0 <= i < |ts| && ts[i].Depends? then Depends
    else CallTyping(id, Kinds(ts))
  }

  // ---- typing tells when a type error escapes ------------------------------------------------

  /** What evaluation can come to, given the typing. */
  ghost predicate Told(r: Result<Value, Failure>, t: Typing, e: Env) {
    && (r.Err? ==> r.error.TypeError? || r.error.Arithmetic?)
    && (t.Fits? ==> (r.Ok? ==> Is(r.value, t.kind)) && (r.Err? ==> r.error.Arithmetic?))
    && (t.Clashes? ==> r.Err?)
  }

  lemma ExponentValue(n: Node, e: Env)
    requires SmallExponent(n)
    ensures Eval(n, e) == Ok(Exponent(n)) && Guarded(Exponent(n))
    ensures Exponent(n).Int? || Exponent(n).Float?
  {
  }

  lemma OperatorTold(op: BinOper, a: Value, b: Value, ka: Kind, kb: Kind, e: Env)
    requires Sound(e) && !op.OtherBin? && !op.Pow? && Is(a, ka) && Is(b, kb)
    ensures Told(Combine(op, a, b, e), OperatorTyping(op, ka, kb), e)
  {
  }

  lemma PowerTold(a: Value, b: Value, ka: Kind, e: Env)
    requires Sound(e) && Guarded(b) && Is(a, ka)
    ensures Told(Combine(Pow, a, b, e), PowerTyping(ka, b), e)
  {
  }

  /** Whatever the kinds, an operation ends in a value, a type error or a failure of its arithmetic. */
  lemma OperatorEnds(op: BinOper, a: Value, b: Value, e: Env)
    requires !op.OtherBin? && (op.Pow? ==> Guarded(b))
    ensures var r := Combine(op, a, b, e); r.Err? ==> r.error.TypeError? || r.error.Arithmetic?
  {
  }

  lemma SignTold(op: UnOper, r: Result<Value, Failure>, t: Typing, e: Env)
    requires Told(r, t, e) && !op.OtherUn?
    ensures Told(if r.Err? then r else Signed(op, r.value), SignTyping(t), e)
  {
  }

  lemma BinOpTold(l: Node, op: BinOper, r: Node, e: Env)
    requires Sound(e) && !op.OtherBin? && (op.Pow? ==> SmallExponent(r))
    requires Told(Eval(l, e), TypingOf(l), e)
    requires !op.Pow? ==> Told(Eval(r, e), TypingOf(r), e)
    ensures Told(Eval(BinOp(l, op, r), e), TypingOf(BinOp(l, op, r)), e)
  {
    hide Sound, Combine, OperatorTyping, PowerTyping, Is, SmallExponent, Exponent, Guarded, Signed, ValueOf;
    var a, ta := Eval(l, e), TypingOf(l);
    if op.Pow? {
      ExponentValue(r, e);
      if a.Ok? {
        OperatorEnds(op, a.value, Exponent(r), e);
        if ta.Fits? {
          PowerTold(a.value, Exponent(r), ta.kind, e);
        }
      }
    } else {
      var b, tb := Eval(r, e), TypingOf(r);
      if a.Ok? && b.Ok? {
        OperatorEnds(op, a.value, b.value, e);
        if ta.Fits? && tb.Fits? {
          OperatorTold(op, a.value, b.value, ta.kind, tb.kind, e);
        }
      }
    }
  }

  /** The arguments of a call. */
  ghost predicate AllTold(r: Result<seq<Value>, Failure>, ts: seq<Typing>, e: Env) {
    && (r.Err? ==> r.error.TypeError? || r.error.Arithmetic?)
    && (r.Ok? ==> |r.value| == |ts| && forall i :: 0 <= i < |ts| ==> Told(Ok(r.value[i]), ts[i], e))
    && ((forall i :: 0 <= i < |ts| ==> ts[i].Fits?) && r.Err? ==> r.error.Arithmetic?)
  }

  lemma {:induction false} ArgumentsTold(ns: seq<Node>, e: Env)
    requires forall i :: 0 <= i < |ns| ==> Told(Eval(ns[i], e), TypingOf(ns[i]), e)
    ensures AllTold(EvalAll(ns, e), TypingsOf(ns), e)
  {
    hide TypingOf, Eval;
    if ns != [] {
      var rest := ns[1..];
      assert forall i :: 0 <= i < |rest| ==> rest[i] == ns[i + 1];
      ArgumentsTold(rest, e);
      ConsTold(Eval(ns[0], e), TypingOf(ns[0]), EvalAll(rest, e), TypingsOf(rest), e);
    }
  }

  lemma ConsTold(v: Result<Value, Failure>, t: Typing, vs: Result<seq<Value>, Failure>, ts: seq<Typing>, e: Env)
    requires Told(v, t, e) && AllTold(vs, ts, e)
    ensures var all: Result<seq<Value>, Failure> :=
              if v.Err? then Err(v.error) else if vs.Err? then vs else Ok([v.value] + vs.value);
            AllTold(all, [t] + ts, e)
  {
    var all := [t] + ts;
    assert forall i :: 0 <= i < |ts| ==> all[i + 1] == ts[i];
    assert all[0] == t;
  }

  lemma CallTold(f: Node, args: seq<Node>, e: Env)
    requires f.Name? && f.id in ALLOWED_FUNCTIONS && Sound(e)
    requires forall i :: 0 <= i < |args| ==> Told(Eval(args[i], e), TypingOf(args[i]), e)
    ensures Told(Eval(Call(f, args, []), e), TypingOf(Call(f, args, [])), e)
  {
    hide EvalAll, TypingsOf, CallTyping, Sound;
    ArgumentsTold(args, e);
    var vs, ts := EvalAll(args, e), TypingsOf(args);
    if vs.Ok? {
      LibTold(f.id, vs.value, ts, e);
    }
  }

  lemma LibTold(id: string, vs: seq<Value>, ts: seq<Typing>, e: Env)
    requires Sound(e) && |vs| == |ts| && forall i :: 0 <= i < |ts| ==> Told(Ok(vs[i]), ts[i], e)
    ensures var r := if CallTyping(id, KindsOf(vs)).Clashes? then Err(TypeError) else Computed(e.lib(id, vs));
            Told(r, ArgumentsTyping(id, ts), e)
  {
    if forall i :: 0 <= i < |ts| ==> ts[i].Fits? {
      var ks, kinds := Kinds(ts), KindsOf(vs);
      assert forall i :: 0 <= i < |ks| ==> Is(vs[i], ks[i]) && kinds[i] == KindOf(vs[i]);
      assert forall i :: 0 <= i < |ks| ==> !ks[i].KFloatOrComplex? ==> kinds[i] == ks[i];
      if i :| 0 <= i < |ks| && !Real(ks[i]) && !ks[i].KFloatOrComplex? {
        assert !Real(kinds[i]) && !kinds[i].KFloatOrComplex?;
      }
    }
  }

  /**
   * Evaluating an accepted formula never meets an unknown name or function, an unsupported node or the exponent
   * guard. When its typing fits, it is no type error and its value has that kind; when its typing clashes, it fails.
   */
  lemma {:induction false} EvaluatesAsTyped(n: Node, e: Env)
    requires Formula(n) && Parsed(n) && Sound(e)
    ensures Told(Eval(n, e), TypingOf(n), e)
    decreases Size(n)
  {
    hide Sound, Told;
    match n
    case Expression(b) => EvaluatesAsTyped(b, e);
    case BinOp(l, op, r) =>
      EvaluatesAsTyped(l, e);
      EvaluatesAsTyped(r, e);
      BinOpTold(l, op, r, e);
    case UnaryOp(op, x) =>
      EvaluatesAsTyped(x, e);
      SignTold(op, Eval(x, e), TypingOf(x), e);
    case Call(f, args, keywords) =>
      forall i | 0 <= i < |args|
        ensures Told(Eval(args[i], e), TypingOf(args[i]), e)
      {
        MemberSize(args, i);
        EvaluatesAsTyped(args[i], e);
      }
      CallTold(f, args, e);
    case _ => ValueTold(n, e);
  }

  lemma ValueTold(n: Node, e: Env)
    requires Formula(n) && (n.Constant? || n.Name?)
    ensures Told(Eval(n, e), TypingOf(n), e)
  {
  }

  /** No operator, function or formatting fails for another reason than its types. */
  ghost predicate NeverFails(e: Env) {
    && (forall op, a, b :: Operates(op, a, b).Fits? ==> e.arith(op, a, b).Some?)
    && (forall id, vs :: CallTyping(id, KindsOf(vs)).Fits? ==> e.lib(id, vs).Some?)
    && (forall s, v :: !e.format(s, v).BadValue?)
  }

  lemma {:induction false} OnlyTypesFail(n: Node, e: Env)
    requires Formula(n) && Parsed(n) && NeverFails(e)
    ensures Eval(n, e).Err? ==> Eval(n, e).error.TypeError?
    decreases Size(n)
  {
    hide NeverFails;
    match n
    case Expression(b) => OnlyTypesFail(b, e);
    case BinOp(l, op, r) =>
      OnlyTypesFail(l, e);
      OnlyTypesFail(r, e);
      if op.Pow? {
        ExponentValue(r, e);
      }
      if Eval(l, e).Ok? && Eval(r, e).Ok? {
        OperatorFails(op, Eval(l, e).value, Eval(r, e).value, e);
      }
    case UnaryOp(op, x) => OnlyTypesFail(x, e);
    case Call(f, args, keywords) =>
      forall i | 0 <= i < |args|
        ensures Eval(args[i], e).Err? ==> Eval(args[i], e).error.TypeError?
      {
        MemberSize(args, i);
        OnlyTypesFail(args[i], e);
      }
      ArgumentsFail(args, e);
      if EvalAll(args, e).Ok? {
        FunctionFails(f.id, EvalAll(args, e).value, e);
      }
    case _ =>
  }

  lemma OperatorFails(op: BinOper, a: Value, b: Value, e: Env)
    requires NeverFails(e) && !op.OtherBin? && (op.Pow? ==> Guarded(b))
    ensures var r := Combine(op, a, b, e); r.Err? ==> r.error.TypeError?
  {
    if !(op.Mod? && a.Text?) && !Operates(op, a, b).Clashes? {
      ConcreteTyping(op, a, b);
    }
  }

  /** On values the kinds are known. */
  lemma ConcreteTyping(op: BinOper, a: Value, b: Value)
    requires !(op.Mod? && a.Text?)
    ensures !Operates(op, a, b).Depends?
  {
  }

  lemma FunctionFails(id: string, vs: seq<Value>, e: Env)
    requires NeverFails(e)
    ensures CallTyping(id, KindsOf(vs)).Clashes? || e.lib(id, vs).Some?
  {
    var ks := KindsOf(vs);
    assert forall i :: 0 <= i < |ks| ==> ks[i] == KindOf(vs[i]);
  }

  lemma {:induction false} ArgumentsFail(ns: seq<Node>, e: Env)
    requires forall i :: 0 <= i < |ns| ==> Eval(ns[i], e).Err? ==> Eval(ns[i], e).error.TypeError?
    ensures EvalAll(ns, e).Err? ==> EvalAll(ns, e).error.TypeError?
  {
    if ns != [] {
      assert forall i :: 0 <= i < |ns| - 1 ==> ns[1..][i] == ns[i + 1];
      ArgumentsFail(ns[1..], e);
    }
  }

  /**
   * When evaluation ends in a type error, from the formula's text. With a typing that fits it never does. When
   * nothing fails for another reason and the text does not leave it open, it does if and only if the typing clashes.
   */
  lemma TypeErrorIffClash(n: Node, e: Env)
    requires Formula(n) && Parsed(n) && Sound(e)
    ensures TypingOf(n).Fits? ==> Eval(n, e) != Err(TypeError)
    ensures NeverFails(e) && !TypingOf(n).Depends? ==> (Eval(n, e) == Err(TypeError) <==> TypingOf(n).Clashes?)
  {
    hide Sound, Eval, TypingOf, NeverFails, Parsed, Formula;
    EvaluatesAsTyped(n, e);
    if NeverFails(e) {
      OnlyTypesFail(n, e);
    }
  }

  // ---- formulas whose typing fits ------------------------------------------------------------

  predicate NumericLiteral(v: Literal) {
    v.Whole? || v.Decimal? || v.Flag?
  }

  /** Numeric literals, the right numbers of arguments, and integral exponents. */
  predicate Numerical(n: Node)
    decreases Size(n)
  {
    match n
    case Expression(b) => Numerical(b)
    case BinOp(l, op, r) =>
      Numerical(l) && Numerical(r) && (op.Pow? ==> Exponent(r).Int? || (Exponent(r).Float? && Integral(Exponent(r).v)))
    case UnaryOp(_, x) => Numerical(x)
    case Constant(v) => NumericLiteral(v)
    case Call(f, args, _) =>
      && (f.Name? ==> Arity(f.id, |args|))
      && forall i :: 0 <= i < |args| ==> (MemberSize(args, i); Numerical(args[i]))
    case _ => true
  }

  lemma {:induction false} NumericalFits(n: Node)
    requires Formula(n) && Parsed(n) && Numerical(n)
    ensures RealTyping(TypingOf(n))
    decreases Size(n)
  {
    hide OperatorTyping, PowerTyping, ArgumentsTyping, SmallExponent;
    match n
    case Expression(b) => NumericalFits(b);
    case BinOp(l, op, r) =>
      NumericalFits(l);
      NumericalFits(r);
      OperatorFits(op, TypingOf(l).kind, TypingOf(r).kind, Exponent(r));
    case UnaryOp(_, x) => NumericalFits(x);
    case Call(f, args, _) =>
      forall i | 0 <= i < |args|
        ensures RealTyping(TypingOf(args[i]))
      {
        MemberSize(args, i);
        NumericalFits(args[i]);
      }
      ArgumentsFit(f.id, args);
    case _ =>
  }

  predicate RealTyping(t: Typing) {
    t.Fits? && Real(t.kind)
  }

  lemma OperatorFits(op: BinOper, a: Kind, b: Kind, exponent: Value)
    requires Real(a) && Real(b)
    ensures !op.Pow? ==> RealTyping(OperatorTyping(op, a, b))
    ensures exponent.Int? || (exponent.Float? && Integral(exponent.v)) ==> RealTyping(PowerTyping(a, exponent))
  {
  }

  lemma ArgumentsFit(id: string, args: seq<Node>)
    requires Arity(id, |args|) && forall i :: 0 <= i < |args| ==> RealTyping(TypingOf(args[i]))
    ensures RealTyping(ArgumentsTyping(id, TypingsOf(args)))
  {
    hide TypingOf, TypingsOf, CallTyping, Arity, Real;
    TypingsAt(args);
    var ts := TypingsOf(args);
    CallFits(id, Kinds(ts));
  }

  lemma CallFits(id: string, kinds: seq<Kind>)
    requires Arity(id, |kinds|) && forall i :: 0 <= i < |kinds| ==> Real(kinds[i])
    ensures RealTyping(CallTyping(id, kinds))
  {
  }

  lemma {:induction false} TypingsAt(ns: seq<Node>)
    ensures forall i :: 0 <= i < |ns| ==> TypingsOf(ns)[i] == TypingOf(ns[i])
  {
    hide TypingOf;
    if ns != [] {
      TypingsAt(ns[1..]);
      assert forall i :: 0 < i < |ns| ==> TypingsOf(ns)[i] == TypingsOf(ns[1..])[i - 1] && ns[i] == ns[1..][i - 1];
    }
  }

  /**
   * What remains for an accepted formula with numeric literals, the right numbers of arguments and integral
   * exponents: its value is a real number, or its arithmetic failed.
   */
  lemma OnlyArithmeticRemains(n: Node, e: Env)
    requires Formula(n) && Parsed(n) && Numerical(n) && Sound(e)
    ensures match Eval(n, e) case Ok(v) => v.Int? || v.Float? case Err(f) => f.Arithmetic?
  {
    hide Sound, Eval, TypingOf, Numerical, Parsed, Formula;
    NumericalFits(n);
    EvaluatesAsTyped(n, e);
  }

  /** The text can leave it open: a sine of a root is a type error exactly when the root is of a negative value. */
  lemma RootDepends(base: Node, x: Value, e: Env)
    requires Sound(e) && Formula(base) && TypingOf(base) == Fits(KindOf(x)) && Eval(base, e) == Ok(x)
    requires x.Int? || x.Float?
    ensures var n := Call(Name("sin", true), [BinOp(base, Pow, Constant(Decimal(0.5)))], []);
            var negative := if x.Int? then x.n < 0 else x.v < 0.0;
            && Formula(n) && TypingOf(n).Depends?
            && (Eval(n, e) == Err(TypeError) <==> negative && Eval(n, e) != Err(Arithmetic))
  {
    var root := BinOp(base, Pow, Constant(Decimal(0.5)));
    var negative := if x.Int? then x.n < 0 else x.v < 0.0;
    RootIsFormula(base);
    RootValue(base, x, e);
    var v := Eval(root, e);
    hide Eval, EvalAll, TypingOf, TypingsOf, Formula, Sound;
    SineEval(root, e);
    SineTyping(root);
    if v.Ok? {
      SineOf(v.value);
      SineSound(v.value, e);
    }
  }

  lemma RootIsFormula(base: Node)
    requires Formula(base)
    ensures var root := BinOp(base, Pow, Constant(Decimal(0.5)));
            Formula(root) && Formula(Call(Name("sin", true), [root], []))
  {
    assert Formula(Constant(Decimal(0.5)));
  }

  /** The half power of a number: real unless the number is negative. */
  lemma RootValue(base: Node, x: Value, e: Env)
    requires Sound(e) && TypingOf(base) == Fits(KindOf(x)) && Eval(base, e) == Ok(x) && (x.Int? || x.Float?)
    ensures var root := BinOp(base, Pow, Constant(Decimal(0.5)));
            var negative := if x.Int? then x.n < 0 else x.v < 0.0;
            && TypingOf(root) == Fits(KFloatOrComplex)
            && match Eval(root, e) case Ok(v) => KindOf(v) == (if negative then KComplex else KFloat)
                                   case Err(f) => f.Arithmetic?
  {
    var negative := if x.Int? then x.n < 0 else x.v < 0.0;
    assert Operates(Pow, x, Float(0.5)) == Fits(if negative then KComplex else KFloat);
    assert Eval(Constant(Decimal(0.5)), e) == Ok(Float(0.5));
  }

  lemma SineEval(root: Node, e: Env)
    ensures Eval(Call(Name("sin", true), [root], []), e) ==
            match Eval(root, e)
            case Ok(v) =>
              if CallTyping("sin", KindsOf([v])).Clashes? then Err(TypeError) else Computed(e.lib("sin", [v]))
            case Err(f) => Err(f)
  {
    hide CallTyping;
    assert [root][1..] == [] && EvalAll([], e) == Ok([]);
    var v := Eval(root, e);
    if v.Ok? {
      assert [v.value] + [] == [v.value];
    }
  }

  lemma SineTyping(root: Node)
    requires TypingOf(root) == Fits(KFloatOrComplex)
    ensures TypingOf(Call(Name("sin", true), [root], [])).Depends?
  {
    assert [root][1..] == [] && TypingsOf([root]) == [Fits(KFloatOrComplex)];
    assert Kinds([Fits(KFloatOrComplex)])[0].KFloatOrComplex?;
    assert ArgumentsTyping("sin", [Fits(KFloatOrComplex)]).Depends?;
  }

  lemma SineSound(v: Value, e: Env)
    ensures Computed(e.lib("sin", [v])) != Err(TypeError)
  {
  }

  lemma SineOf(v: Value)
    ensures CallTyping("sin", KindsOf([v])).Clashes? <==> !Real(KindOf(v))
  {
    var ks := KindsOf([v]);
    assert ks[0] == KindOf(v) && |ks| == 1;
  }

  // ---- conversion ----------------------------------------------------------------------------

  datatype Converted =
    | Returned(v: real)
    | Rejected(flaw: Flaw)
    | FormulaError             // raised by convert as documented
    | EscapedTypeError
    | EscapedOverflow

  /** Integers from here on do not round to a float. */
  function FloatLimit(): int {
    Power(2, 1024) - Power(2, 970)
  }

  /** `float(result)`: a text that reads as a number converts too. */
  function ToFloat(v: Value, e: Env): Converted {
    match v
    case Int(n) => if -FloatLimit() < n < FloatLimit() then Returned(n as real) else EscapedOverflow
    case Float(x) => Returned(x)
    case Text(s) => if e.parse(s).Some? then Returned(e.parse(s).value) else FormulaError
    case _ => FormulaError
  }

  function Converts(tree: Node, e: Env): Converted {
    if Checked(tree).Some? then Rejected(Checked(tree).value)
    else
      match Eval(tree, e)
      case Ok(v) => ToFloat(v, e)
      case Err(f) => if f.TypeError? then EscapedTypeError else FormulaError
  }

  /** `convert` promises to raise its own error and no other. */
  predicate KeepsPromise(c: Converted) {
    c.Returned? || c.Rejected? || c.FormulaError?
  }

  /** `convert`, on a parsed expression. */
  method Convert(tree: Node, e: Env) returns (r: Converted)
    requires Parsed(tree)
    ensures r == Converts(tree, e)
  {
    hide Eval, Checked;
    var flaw := CheckAst(tree);
    if flaw.Some? {
      return Rejected(flaw.value);
    }
    match Eval(tree, e)
    case Ok(v) => r := ToFloat(v, e);
    case Err(f) =>
      if f.TypeError? {
        return EscapedTypeError;
      }
      return FormulaError;
  }

  /** Python's remainder takes the sign of the divisor. */
  function FloorMod(a: int, b: int): int
    requires b != 0
  {
    if b > 0 then a % b else -((-a) % (-b))
  }

  /** The operations with integer results on integers. */
  predicate KeepsIntegers(op: BinOper, b: int) {
    op.Add? || op.Sub? || op.Mult? || op.Mod? || (op.Pow? && b >= 0)
  }

  function IntegerArith(op: BinOper, a: int, b: int): Option<int>
    requires KeepsIntegers(op, b)
  {
    match op
    case Add => Some(a + b)
    case Sub => Some(a - b)
    case Mult => Some(a * b)
    case Mod => if b == 0 then None else Some(FloorMod(a, b))
    case Pow => Some(Power(a, b))
  }

  function AsValue(v: Option<int>): Option<Value> {
    if v.None? then None else Some(Int(v.value))
  }

  /** Integer operations are exact; the only one that fails is the remainder by zero. */
  ghost predicate ExactIntegers(e: Env) {
    && (forall op, a, b :: KeepsIntegers(op, b) ==> e.arith(op, Int(a), Int(b)) == AsValue(IntegerArith(op, a, b)))
    && (forall a :: e.lib("abs", [Int(a)]) == Some(Int(if a < 0 then -a else a)))
  }

  /** The integer an integer formula stands for: no input occurs in it. None is a remainder by zero. */
  function IntegerOf(n: Node): Option<int>
    decreases Size(n)
  {
    match n
    case Expression(b) => IntegerOf(b)
    case Constant(Whole(k)) => Some(k)
    case Constant(Flag(b)) => Some(if b then 1 else 0)
    case UnaryOp(op, x) =>
      var v := IntegerOf(x);
      if v.Some? && op.USub? then Some(-v.value) else v
    case BinOp(l, op, r) =>
      IntegerResult(op, IntegerOf(l), if op.Pow? then ExponentOf(r) else IntegerOf(r))
    case Call(_, args, _) =>
      if |args| != 1 then None else
        MemberSize(args, 0);
        var v := IntegerOf(args[0]);
        if v.Some? && v.value < 0 then Some(-v.value) else v
    case _ => None
  }

  function ExponentOf(n: Node): Option<int> {
    if Exponent(n).Int? then Some(Exponent(n).n) else None
  }

  function IntegerResult(op: BinOper, a: Option<int>, b: Option<int>): Option<int> {
    if a.None? || b.None? || !KeepsIntegers(op, b.value) then None else IntegerArith(op, a.value, b.value)
  }

  function IntegerValue(v: Option<int>): Result<Value, Failure> {
    if v.None? then Err(Arithmetic) else Ok(Int(v.value))
  }

  /** Operands of an integer operation are integers. */
  lemma IntegerOperands(op: BinOper, a: Typing, b: Typing)
    requires !op.Pow? && Joint(a, b, (x, y) => OperatorTyping(op, x, y)) == Fits(KInt)
    ensures a == Fits(KInt) && b == Fits(KInt) && !op.Div?
  {
  }

  lemma PowerOperand(t: Typing, exponent: Value)
    requires (if t.Fits? then PowerTyping(t.kind, exponent) else t) == Fits(KInt)
    ensures t == Fits(KInt) && exponent.Int? && exponent.n >= 0
  {
  }

  lemma IntegerCombine(op: BinOper, a: int, b: int, e: Env)
    requires KeepsIntegers(op, b) && (op.Pow? ==> Guarded(Int(b)))
    ensures Combine(op, Int(a), Int(b), e) == Computed(e.arith(op, Int(a), Int(b)))
  {
  }

  lemma IntegerOperation(op: BinOper, a: Option<int>, b: Option<int>, e: Env)
    requires ExactIntegers(e) && (b.Some? ==> KeepsIntegers(op, b.value) && (op.Pow? ==> Guarded(Int(b.value))))
    ensures (if a.None? then Err(Arithmetic) else if b.None? then Err(Arithmetic)
             else Combine(op, Int(a.value), Int(b.value), e)) == IntegerValue(IntegerResult(op, a, b))
  {
    hide IntegerArith, Combine, KeepsIntegers;
    if a.Some? && b.Some? {
      IntegerCombine(op, a.value, b.value, e);
    }
  }

  lemma IntegerAbs(args: seq<Node>, e: Env)
    requires ExactIntegers(e) && |args| == 1 && Eval(args[0], e) == IntegerValue(IntegerOf(args[0]))
    ensures Eval(Call(Name("abs", true), args, []), e) == IntegerValue(IntegerOf(Call(Name("abs", true), args, [])))
  {
    hide ExactIntegers;
    assert args == [args[0]] && args[1..] == [];
    var v := IntegerOf(args[0]);
    if v.Some? {
      assert EvalAll(args, e) == Ok([Int(v.value)] + []);
      assert [Int(v.value)] + [] == [Int(v.value)];
      AbsOf(v.value, e);
    }
  }

  lemma AbsOf(a: int, e: Env)
    requires ExactIntegers(e)
    ensures e.lib("abs", [Int(a)]) == Some(Int(if a < 0 then -a else a))
    ensures CallTyping("abs", KindsOf([Int(a)])) == Fits(KInt)
  {
    assert KindsOf([Int(a)])[0] == KInt;
  }

  /** An integer formula evaluates to the integer it stands for. */
  lemma {:induction false} IntegerFormula(n: Node, e: Env)
    requires Formula(n) && Parsed(n) && TypingOf(n) == Fits(KInt) && ExactIntegers(e)
    ensures Eval(n, e) == IntegerValue(IntegerOf(n))
    decreases Size(n)
  {
    hide ExactIntegers, IntegerResult, Combine, OperatorTyping, PowerTyping, Joint;
    match n
    case Expression(b) => IntegerFormula(b, e);
    case UnaryOp(op, x) => IntegerFormula(x, e);
    case BinOp(l, op, r) => IntegerBinOp(l, op, r, e);
    case Call(f, args, keywords) =>
      AbsCall(f, args);
      MemberSize(args, 0);
      IntegerFormula(args[0], e);
      assert f == Name("abs", true);
      IntegerAbs(args, e);
    case _ =>
  }

  lemma IntegerBinOp(l: Node, op: BinOper, r: Node, e: Env)
    requires var n := BinOp(l, op, r); Formula(n) && Parsed(n) && TypingOf(n) == Fits(KInt) && ExactIntegers(e)
    ensures Eval(BinOp(l, op, r), e) == IntegerValue(IntegerOf(BinOp(l, op, r)))
    decreases Size(BinOp(l, op, r)), 0
  {
    hide ExactIntegers, IntegerResult, Combine, OperatorTyping, PowerTyping, Joint;
    if op.Pow? {
      ExponentValue(r, e);
      PowerOperand(TypingOf(l), Exponent(r));
      IntegerFormula(l, e);
      IntegerOperation(op, IntegerOf(l), ExponentOf(r), e);
    } else {
      IntegerOperands(op, TypingOf(l), TypingOf(r));
      IntegerFormula(l, e);
      IntegerFormula(r, e);
      IntegerOperation(op, IntegerOf(l), IntegerOf(r), e);
    }
  }

  /** The only function with an integer result is `abs`, of an integer. */
  lemma AbsCall(f: Node, args: seq<Node>)
    requires Formula(Call(f, args, [])) && TypingOf(Call(f, args, [])) == Fits(KInt)
    ensures f == Name("abs", true) && |args| == 1 && TypingOf(args[0]) == Fits(KInt)
  {
    TypingsAt(args);
    var ts := TypingsOf(args);
    assert ArgumentsTyping(f.id, ts) == CallTyping(f.id, Kinds(ts));
  }

  predicate Huge(v: Option<int>) {
    v.Some? && !(-FloatLimit() < v.value < FloatLimit())
  }

  /**
   * When `convert` keeps its promise, from the formula's text. It rejects exactly the trees outside the grammar. A
   * formula whose typing fits keeps it unless it is an integer formula that stands for an integer beyond the floats,
   * and then breaks it. One whose typing clashes never returns a value, and breaks it unless an operation failed for
   * another reason first. So unless the text leaves it open the promise is broken if and only if the typing
   * clashes or the formula is a huge integer.
   */
  lemma PromiseIff(tree: Node, e: Env)
    requires Parsed(tree) && Sound(e)
    ensures var c, t := Converts(tree, e), TypingOf(tree);
            && (c.Rejected? <==> !Formula(tree))
            && (Formula(tree) && t.Fits? && !t.kind.KInt? ==> KeepsPromise(c))
            && (Formula(tree) && t == Fits(KInt) && ExactIntegers(e) ==>
                  (!KeepsPromise(c) <==> Huge(IntegerOf(tree))))
            && (Formula(tree) && t.Clashes? ==> c.EscapedTypeError? || c.FormulaError?)
            && (Formula(tree) && !t.Depends? && (t == Fits(KInt) ==> ExactIntegers(e)) &&
                (t.Clashes? ==> NeverFails(e)) ==>
                  (!KeepsPromise(c) <==> t.Clashes? || (t == Fits(KInt) && Huge(IntegerOf(tree)))))
  {
    hide Sound, Eval, TypingOf, Formula, Checked, FloatLimit, NeverFails, ExactIntegers, IntegerOf, Parsed;
    AcceptsGrammar(tree);
    if Formula(tree) {
      EvaluatesAsTyped(tree, e);
      if TypingOf(tree) == Fits(KInt) && ExactIntegers(e) {
        IntegerFormula(tree, e);
      }
      if NeverFails(e) {
        OnlyTypesFail(tree, e);
      }
    }
  }

  /** A text literal is accepted and converts when it reads as a number; `None` is accepted and is an error. */
  lemma LiteralsConvert(s: string, e: Env)
    ensures Converts(Constant(Str(s)), e) == if e.parse(s).Some? then Returned(e.parse(s).value) else FormulaError
    ensures Converts(Constant(Nothing), e) == FormulaError
  {
    AcceptsGrammar(Constant(Str(s)));
    AcceptsGrammar(Constant(Nothing));
  }

  predicate IsNumber(v: Literal) {
    v.Whole? || v.Decimal? || v.Flag? || v.Imaginary?
  }

  predicate IsInteger(v: Literal) {
    v.Whole? || v.Flag?
  }

  lemma LiteralTyping(a: Literal, op: BinOper, b: Literal)
    requires !op.Pow?
    ensures TypingOf(BinOp(Constant(a), op, Constant(b))) == OperatorTyping(op, KindOf(ValueOf(a)), KindOf(ValueOf(b)))
  {
    hide OperatorTyping;
    assert TypingOf(Constant(a)) == Fits(KindOf(ValueOf(a))) && TypingOf(Constant(b)) == Fits(KindOf(ValueOf(b)));
  }

  /** Which literals can be added, subtracted, divided and multiplied: texts join, and texts times integers repeat. */
  lemma LiteralsCombine(a: Literal, b: Literal)
    ensures var x, y := Constant(a), Constant(b);
            var numbers := IsNumber(a) && IsNumber(b);
            var repeats := (a.Str? && IsInteger(b)) || (IsInteger(a) && b.Str?);
            && (TypingOf(BinOp(x, Add, y)).Clashes? <==> !numbers && !(a.Str? && b.Str?))
            && (TypingOf(BinOp(x, Mult, y)).Clashes? <==> !numbers && !repeats)
            && (TypingOf(BinOp(x, Sub, y)).Clashes? <==> !numbers)
            && (TypingOf(BinOp(x, Div, y)).Clashes? <==> !numbers)
            && (TypingOf(BinOp(x, Div, y)) == Fits(KFloat) <==> numbers && !a.Imaginary? && !b.Imaginary?)
            && (TypingOf(BinOp(x, Add, y)) == Fits(KInt) <==> IsInteger(a) && IsInteger(b))
  {
    hide TypingOf;
    LiteralTyping(a, Add, b);
    LiteralTyping(a, Mult, b);
    LiteralTyping(a, Sub, b);
    LiteralTyping(a, Div, b);
  }

  function Constants(vs: seq<Literal>): (r: seq<Node>)
    ensures |r| == |vs| && forall i :: 0 <= i < |r| ==> r[i] == Constant(vs[i])
  {
    seq(|vs|, i requires 0 <= i < |vs| => Constant(vs[i]))
  }

  /** Which literals a function can be called with: one number, or two for `log`; complex ones only for `abs`. */
  lemma LiteralCalls(id: string, vs: seq<Literal>)
    ensures var t := TypingOf(Call(Name(id, true), Constants(vs), []));
            if (|vs| == 1 || (id == "log" && |vs| == 2)) &&
               forall i :: 0 <= i < |vs| ==> IsNumber(vs[i]) && (vs[i].Imaginary? ==> id == "abs")
            then t == Fits(if id == "abs" && IsInteger(vs[0]) then KInt else KFloat)
            else t == Clashes
  {
    hide TypingsOf;
    var args := Constants(vs);
    TypingsAt(args);
    var ts := TypingsOf(args);
    forall i | 0 <= i < |vs|
      ensures ts[i] == Fits(KindOf(ValueOf(vs[i])))
    {
      assert TypingOf(Constant(vs[i])) == Fits(KindOf(ValueOf(vs[i])));
    }
    CallOfKinds(id, vs, Kinds(ts));
  }

  lemma CallOfKinds(id: string, vs: seq<Literal>, kinds: seq<Kind>)
    requires |kinds| == |vs| && forall i :: 0 <= i < |vs| ==> kinds[i] == KindOf(ValueOf(vs[i]))
    ensures CallTyping(id, kinds) ==
            if (|vs| == 1 || (id == "log" && |vs| == 2)) &&
               forall i :: 0 <= i < |vs| ==> IsNumber(vs[i]) && (vs[i].Imaginary? ==> id == "abs")
            then Fits(if id == "abs" && IsInteger(vs[0]) then KInt else KFloat)
            else Clashes
  {
  }

  /** A call without arguments is accepted; its typing clashes, and its type error escapes whatever the input. */
  lemma ArityIsNotChecked(e: Env)
    ensures var n := Call(Name("sin", true), [], []);
            Formula(n) && TypingOf(n).Clashes? && Converts(n, e) == EscapedTypeError
  {
    AcceptsGrammar(Call(Name("sin", true), [], []));
  }

  function Tower(): Node {
    BinOp(BinOp(Constant(Whole(16)), Pow, Constant(Whole(64))), Pow, Constant(Whole(4)))
  }

  lemma TowerIsInteger()
    ensures Formula(Tower()) && Parsed(Tower()) && TypingOf(Tower()) == Fits(KInt)
    ensures IntegerOf(Tower()) == Some(Power(Power(16, 64), 4))
  {
    hide Power;
  }

  /** So is a tower of small exponents: 16 to the 64th, to the 4th is a huge integer, and its overflow escapes. */
  lemma HugeIntegerEscapes(e: Env)
    requires Sound(e) && ExactIntegers(e)
    ensures Huge(IntegerOf(Tower())) && Converts(Tower(), e) == EscapedOverflow
  {
    hide Power, Eval, Checked, Formula, TypingOf, IntegerOf, Tower, Sound, ExactIntegers, Parsed;
    TowerIsInteger();
    Sixteen();
    PowerOfPower(2, 4, 64);
    PowerOfPower(2, 256, 4);
    PowerPositive(2, 970);
    PromiseIff(Tower(), e);
    TypeErrorIffClash(Tower(), e);
    AcceptsGrammar(Tower());
  }

  lemma Sixteen()
    ensures Power(2, 4) == 16
  {
    assert Power(2, 4) == 2 * Power(2, 3) == 2 * (2 * Power(2, 2));
    assert Power(2, 2) == 2 * Power(2, 1) == 2 * (2 * Power(2, 0));
  }
}
