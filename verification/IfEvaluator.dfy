/**
 unifdef's table-driven evaluator, with its loop over operators and its keepthis flag,
 proved to return exactly the C value of the one parse.
 */
module IfEvaluator {
  import opened ConditionalInclusion
  import opened IfExpression

  const INT_MAX: int := 0x7FFF_FFFF

  predicate Fits(n: int) {
    -INT_MAX - 1 <= n <= INT_MAX
  }

  /** The symbols given with -D and -U, the -k flag, and LONG_MAX of the host. */
  datatype Config = Config(syms: map<string, Macro>, killconsts: bool, longMax: int)

  predicate Host(c: Config) {
    c.longMax >= INT_MAX
  }

  /** strtol clamps to long; the assignment to int wraps. */
  function ToInt(n: int, longMax: int): (r: int)
    ensures Fits(r)
  {
    var clamped := if n > longMax then longMax else if n < -longMax - 1 then -longMax - 1 else n;
    (clamped + 0x8000_0000) % 0x1_0000_0000 - 0x8000_0000
  }

  lemma ToIntExact(n: int, longMax: int)
    requires longMax >= INT_MAX
    ensures ToInt(n, longMax) == n <==> Fits(n)
  {
  }

  /** The value as unifdef's integers give it, or None when a symbol is not known or has a
      replacement that is not a number. */
  function Value(e: Expr, c: Config): Option<int> {
    match e
    case Number(n) => Some(ToInt(n, c.longMax))
    case Symbol(x) =>
      if x !in c.syms || c.syms[x].Textual? then None
      else if c.syms[x].Undefined? then Some(0) else Some(ToInt(c.syms[x].n, c.longMax))
    case Defined(x) => if x in c.syms then Some(Truth(!c.syms[x].Undefined?)) else None
    case Not(a) => (match Value(a, c) case None => None case Some(v) => Some(Truth(v == 0)))
    case Paren(a) => Value(a, c)
    case Binary(op, l, r) =>
      (match (Value(l, c), Value(r, c))
       case (Some(a), Some(b)) => Some(Operate(op, a, b))
       case _ => None)
  }

  /** Does the expression name a symbol? A constant one is left alone unless -k is given. */
  predicate Mentions(e: Expr) {
    match e
    case Number(_) => false
    case Symbol(_) | Defined(_) => true
    case Not(a) => Mentions(a)
    case Paren(a) => Mentions(a)
    case Binary(_, l, r) => Mentions(l) || Mentions(r)
  }

  /** LT_IF, or LT_TRUE and LT_FALSE with the value, the rest of the line and keepthis. */
  datatype Verdict = Undecidable | Decided(val: int, rest: seq<Token>, keepthis: bool)

  ghost function VerdictOf(p: Option<(Expr, seq<Token>)>, c: Config, keepthis: bool): Verdict {
    match p
    case None => Undecidable
    case Some((e, rest)) =>
      match Value(e, c)
      case None => Undecidable
      case Some(v) => Decided(v, rest, keepthis && !Mentions(e))
  }

  function OpTable(k: nat): seq<Op>
    requires k < UNARY
  {
    [[Or], [And], [Eq, Ne], [Le, Ge, Lt, Gt]][k]
  }

  /** An operand that cannot be evaluated spoils every expression it becomes part of. */
  lemma {:induction false} MoreUndecidable(k: nat, left: Expr, toks: seq<Token>, c: Config, keepthis: bool)
    requires k < UNARY && Value(left, c).None?
    ensures VerdictOf(ParseMore(k, left, toks), c, keepthis).Undecidable?
    decreases |toks|
  {
    if toks != [] && toks[0].Bin? && Precedence(toks[0].op) == k {
      match ParseLevel(k + 1, toks[1..])
      case None =>
      case Some((right, rest)) => MoreUndecidable(k, Binary(toks[0].op, left, right), rest, c, keepthis);
    }
  }

  method EvalUnary(toks: seq<Token>, c: Config, keepthis: bool) returns (r: Verdict)
    ensures r == VerdictOf(ParseUnary(toks), c, keepthis)
    decreases |toks|, 0
  {
    if toks == [] { return Undecidable; }
    match toks[0]
    case Bang =>
      r := EvalUnary(toks[1..], c, keepthis);
      if r.Decided? { r := r.(val := Truth(r.val == 0)); }
    case LPar =>
      r := EvalTable(0, toks[1..], c, keepthis);
      if r.Decided? {
        if r.rest == [] || !r.rest[0].RPar? { return Undecidable; }
        r := r.(rest := r.rest[1..]);
      }
    case Num(n) => return Decided(ToInt(n, c.longMax), toks[1..], keepthis);
    case DefinedKw =>
      if |toks| < 2 || !toks[1].LPar? { return Undecidable; }
      if |toks| < 3 || !toks[2].Id? || toks[2].name !in c.syms { return Undecidable; }
      var val := Truth(!c.syms[toks[2].name].Undefined?);
      if |toks| < 4 || !toks[3].RPar? { return Undecidable; }
      return Decided(val, toks[4..], false);
    case Id(x) =>
      if x !in c.syms { return Undecidable; }
      match c.syms[x] {
        case Undefined => return Decided(0, toks[1..], false);
        case Textual => return Undecidable;
        case Numeric(n) => return Decided(ToInt(n, c.longMax), toks[1..], false);
      }
    case _ => return Undecidable;
  }

  method EvalInner(k: nat, toks: seq<Token>, c: Config, keepthis: bool) returns (r: Verdict)
    requires k <= UNARY
    ensures r == VerdictOf(ParseLevel(k, toks), c, keepthis)
    decreases |toks|, UNARY - k + 1, 1
  {
    if k == UNARY { r := EvalUnary(toks, c, keepthis); } else { r := EvalTable(k, toks, c, keepthis); }
  }

  /** The search of the precedence table's row for the operator at the cursor. */
  method FindOperator(k: nat, toks: seq<Token>) returns (found: Option<Op>)
    requires k < UNARY
    ensures found == if toks != [] && toks[0].Bin? && Precedence(toks[0].op) == k then Some(toks[0].op) else None
  {
    var row := OpTable(k);
    var i := 0;
    while i < |row|
      invariant 0 <= i <= |row|
      invariant forall j :: 0 <= j < i ==> toks == [] || toks[0] != Bin(row[j])
    {
      if toks != [] && toks[0] == Bin(row[i]) {
        return Some(row[i]);
      }
      i := i + 1;
    }
    if toks != [] && toks[0].Bin? && Precedence(toks[0].op) == k {
      RowComplete(toks[0].op);
      assert false;
    }
    return None;
  }

  lemma RowComplete(op: Op)
    ensures op in OpTable(Precedence(op))
  {
    match op
    case Or => assert OpTable(0)[0] == Or;
    case And => assert OpTable(1)[0] == And;
    case Eq => assert OpTable(2)[0] == Eq;
    case Ne => assert OpTable(2)[1] == Ne;
    case Le => assert OpTable(3)[0] == Le;
    case Ge => assert OpTable(3)[1] == Ge;
    case Lt => assert OpTable(3)[2] == Lt;
    case Gt => assert OpTable(3)[3] == Gt;
  }

  method EvalTable(k: nat, toks: seq<Token>, c: Config, keepthis: bool) returns (r: Verdict)
    requires k < UNARY
    ensures r == VerdictOf(ParseLevel(k, toks), c, keepthis)
    decreases |toks|, UNARY - k + 1, 0
  {
    r := EvalInner(k + 1, toks, c, keepthis);
    ghost var p := ParseLevel(k + 1, toks);
    if r.Undecidable? {
      if p.Some? { MoreUndecidable(k, p.value.0, p.value.1, c, keepthis); }
      return;
    }
    ghost var e := p.value.0;
    while true
      invariant r.Decided? && |r.rest| < |toks|
      invariant r == VerdictOf(Some((e, r.rest)), c, keepthis)
      invariant ParseLevel(k, toks) == ParseMore(k, e, r.rest)
      decreases |r.rest|
    {
      var op := FindOperator(k, r.rest);
      if op.None? { return; }
      ghost var right := ParseLevel(k + 1, r.rest[1..]);
      var s := EvalInner(k + 1, r.rest[1..], c, r.keepthis);
      if s.Undecidable? {
        if right.Some? { MoreUndecidable(k, Binary(op.value, e, right.value.0), right.value.1, c, keepthis); }
        return Undecidable;
      }
      e := Binary(op.value, e, right.value.0);
      r := Decided(Operate(op.value, r.val, s.val), s.rest, s.keepthis);
    }
  }

  /** The condition of an #if or #elif line: known only when the whole line was evaluated and
      it is not a constant to be kept. */
  ghost function Condition(toks: seq<Token>, c: Config): Option<bool> {
    match VerdictOf(ParseLevel(0, toks), c, !c.killconsts)
    case Undecidable => None
    case Decided(v, rest, keepthis) => if rest != [] || keepthis then None else Some(v != 0)
  }

  method IfEval(toks: seq<Token>, c: Config) returns (r: Option<bool>)
    ensures r == Condition(toks, c)
  {
    var keepthis := !c.killconsts;
    var v := EvalTable(0, toks, c, keepthis);
    match v
    case Undecidable => return None;
    case Decided(val, rest, keep) => return if rest != [] || keep then None else Some(val != 0);
  }

  // Agreement with C

  /** Every numeral of the expression, and every numeric symbol it uses, fits in an int. */
  predicate NumeralsFit(e: Expr, c: Config) {
    match e
    case Number(n) => Fits(n)
    case Symbol(x) => x in c.syms && c.syms[x].Numeric? ==> Fits(c.syms[x].n)
    case Defined(_) => true
    case Not(a) => NumeralsFit(a, c)
    case Paren(a) => NumeralsFit(a, c)
    case Binary(_, l, r) => NumeralsFit(l, c) && NumeralsFit(r, c)
  }

  ghost predicate Agrees(w: World, c: Config) {
    forall x :: x in c.syms ==> w.macros(x) == c.syms[x]
  }

  lemma {:induction false} ValueIsCValue(e: Expr, c: Config, w: World)
    requires Host(c) && Agrees(w, c) && NumeralsFit(e, c) && Value(e, c).Some?
    ensures Value(e, c) == Some(CValue(e, w))
  {
    match e
    case Number(n) => ToIntExact(n, c.longMax);
    case Symbol(x) => if c.syms[x].Numeric? { ToIntExact(c.syms[x].n, c.longMax); }
    case Defined(_) =>
    case Not(a) => ValueIsCValue(a, c, w);
    case Paren(a) => ValueIsCValue(a, c, w);
    case Binary(_, l, r) => ValueIsCValue(l, c, w); ValueIsCValue(r, c, w);
  }

  /** A decided condition is the spelling of one expression of the grammar, all of whose
      symbols are known, and its truth is the C truth in every environment that has the
      given symbols. */
  lemma ConditionSound(toks: seq<Token>, c: Config) returns (e: Expr)
    requires Host(c) && Condition(toks, c).Some?
    ensures Derivable(e, 0) && toks == Spell(e) && Value(e, c).Some? && (c.killconsts || Mentions(e))
    ensures NumeralsFit(e, c) ==>
              forall w: World :: Agrees(w, c) ==> (CValue(e, w) != 0) == Condition(toks, c).value
  {
    ParseLevelSound(0, toks);
    e := ParseLevel(0, toks).value.0;
    if NumeralsFit(e, c) {
      forall w: World | Agrees(w, c) ensures (CValue(e, w) != 0) == Condition(toks, c).value {
        ValueIsCValue(e, c, w);
      }
    }
  }

  /** Exactly which spelled expressions are decided, and with what answer. */
  lemma ConditionComplete(e: Expr, c: Config)
    requires Derivable(e, 0)
    ensures Condition(Spell(e), c) ==
            match Value(e, c)
            case Some(v) => if c.killconsts || Mentions(e) then Some(v != 0) else None
            case None => None
  {
    assert Spell(e) + [] == Spell(e);
    ParseSpelled(e, 0, []);
  }

  // Where unifdef's int differs from C's intmax_t

  /** Every numeral is `n` or fits in an int; no symbols. */
  predicate ConstantOver(e: Expr, n: nat) {
    match e
    case Number(m) => m == n || Fits(m)
    case Symbol(_) | Defined(_) => false
    case Not(a) => ConstantOver(a, n)
    case Paren(a) => ConstantOver(a, n)
    case Binary(_, l, r) => ConstantOver(l, n) && ConstantOver(r, n)
  }

  /** A numeral is safe in every constant expression exactly when it fits in an int; one that
      does not makes some comparison come out differently from C. */
  lemma NumeralExact(n: nat, c: Config, w: World)
    requires Host(c)
    ensures Fits(n) <==> forall e :: ConstantOver(e, n) ==> Value(e, c) == Some(CValue(e, w))
  {
    if Fits(n) {
      forall e | ConstantOver(e, n) ensures Value(e, c) == Some(CValue(e, w)) {
        ConstantValue(e, n, c, w);
      }
    } else {
      var m := ToInt(n, c.longMax);
      ToIntExact(n, c.longMax);
      if m >= 0 {
        ToIntExact(m, c.longMax);
        Misjudged(Eq, n, m, c, w);
      } else {
        ToIntExact(0, c.longMax);
        Misjudged(Lt, n, 0, c, w);
      }
    }
  }

  /** A comparison that unifdef's values make true and C's make false. */
  lemma Misjudged(op: Op, n: nat, m: nat, c: Config, w: World)
    requires Fits(m)
    requires Operate(op, ToInt(n, c.longMax), ToInt(m, c.longMax)) == 1 && Operate(op, n, m) == 0
    ensures exists e :: ConstantOver(e, n) && Value(e, c) != Some(CValue(e, w))
  {
    var a, b := Number(n), Number(m);
    assert ConstantOver(a, n) && ConstantOver(b, n);
    assert Value(a, c) == Some(ToInt(n, c.longMax)) && Value(b, c) == Some(ToInt(m, c.longMax));
    assert CValue(a, w) == n && CValue(b, w) == m;
    var e := Binary(op, a, b);
    assert Value(e, c) == Some(1) && CValue(e, w) == 0;
    assert ConstantOver(e, n);
  }

  lemma {:induction false} ConstantValue(e: Expr, n: nat, c: Config, w: World)
    requires Host(c) && Fits(n) && ConstantOver(e, n)
    ensures Value(e, c) == Some(CValue(e, w))
  {
    match e
    case Number(m) => ToIntExact(m, c.longMax);
    case Not(a) => ConstantValue(a, n, c, w);
    case Paren(a) => ConstantValue(a, n, c, w);
    case Binary(_, l, r) => ConstantValue(l, n, c, w); ConstantValue(r, n, c, w);
  }
}
