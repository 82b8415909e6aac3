/**
 The expressions of #if and #elif lines: grammar, C value, and the one parse of a token
 string. The grammar is the part of sections 6.5.3.3, 6.5.8, 6.5.9, 6.5.13 and 6.5.14 of
 ISO/IEC 9899:1999 that unifdef evaluates.
 */
module IfExpression {
  import opened ConditionalInclusion

  datatype Op = Or | And | Eq | Ne | Le | Ge | Lt | Gt

  datatype Token = Num(n: nat) | Id(name: string) | DefinedKw | LPar | RPar | Bang | Bin(op: Op) | Other(text: string)

  datatype Expr =
    | Number(n: nat)
    | Symbol(name: string)
    | Defined(name: string)
    | Not(arg: Expr)
    | Paren(arg: Expr)
    | Binary(op: Op, left: Expr, right: Expr)

  /** Precedence: 0 binds loosest; 4 is the level of unary expressions. */
  function Precedence(op: Op): nat {
    match op
    case Or => 0
    case And => 1
    case Eq | Ne => 2
    case Le | Ge | Lt | Gt => 3
  }

  const UNARY := 4

  /** `e` is derivable from the nonterminal of level `k`; binary operators associate to the left. */
  predicate Derivable(e: Expr, k: nat) {
    match e
    case Binary(op, l, r) => k <= Precedence(op) && Derivable(l, Precedence(op)) && Derivable(r, Precedence(op) + 1)
    case Not(a) => Derivable(a, UNARY)
    case Paren(a) => Derivable(a, 0)
    case _ => true
  }

  function Spell(e: Expr): seq<Token> {
    match e
    case Number(n) => [Num(n)]
    case Symbol(x) => [Id(x)]
    case Defined(x) => [DefinedKw, LPar, Id(x), RPar]
    case Not(a) => [Bang] + Spell(a)
    case Paren(a) => [LPar] + Spell(a) + [RPar]
    case Binary(op, l, r) => Spell(l) + [Bin(op)] + Spell(r)
  }

  // Values in C

  datatype Macro = Undefined | Numeric(n: int) | Textual

  /** A translation environment: what every identifier is defined as, what a non-numeric
      replacement evaluates to, and the truth of conditions outside this grammar. */
  datatype World = World(macros: string -> Macro, meaning: string -> int, other: seq<Token> -> bool)

  function Truth(b: bool): int { if b then 1 else 0 }

  function Operate(op: Op, a: int, b: int): int {
    match op
    case Or => Truth(a != 0 || b != 0)
    case And => Truth(a != 0 && b != 0)
    case Eq => Truth(a == b)
    case Ne => Truth(a != b)
    case Le => Truth(a <= b)
    case Ge => Truth(a >= b)
    case Lt => Truth(a < b)
    case Gt => Truth(a > b)
  }

  function CValue(e: Expr, w: World): int {
    match e
    case Number(n) => n
    case Symbol(x) => (match w.macros(x) case Undefined => 0 case Numeric(n) => n case Textual => w.meaning(x))
    case Defined(x) => Truth(!w.macros(x).Undefined?)
    case Not(a) => Truth(CValue(a, w) == 0)
    case Paren(a) => CValue(a, w)
    case Binary(op, l, r) => Operate(op, CValue(l, w), CValue(r, w))
  }

  // The parse

  predicate StartsWithOperator(toks: seq<Token>, k: nat) {
    toks != [] && toks[0].Bin? && k <= Precedence(toks[0].op)
  }

  function ParseUnary(toks: seq<Token>): (r: Option<(Expr, seq<Token>)>)
    ensures r.Some? ==> |r.value.1| < |toks|
    decreases |toks|, 0
  {
    if toks == [] then None else
    match toks[0]
    case Num(n) => Some((Number(n), toks[1..]))
    case Id(x) => Some((Symbol(x), toks[1..]))
    case DefinedKw =>
      if |toks| >= 4 && toks[1].LPar? && toks[2].Id? && toks[3].RPar?
      then Some((Defined(toks[2].name), toks[4..])) else None
    case Bang =>
      (match ParseUnary(toks[1..]) case None => None case Some((e, rest)) => Some((Not(e), rest)))
    case LPar =>
      (match ParseLevel(0, toks[1..])
       case None => None
       case Some((e, rest)) => if rest != [] && rest[0].RPar? then Some((Paren(e), rest[1..])) else None)
    case _ => None
  }

  function ParseLevel(k: nat, toks: seq<Token>): (r: Option<(Expr, seq<Token>)>)
    requires k <= UNARY
    ensures r.Some? ==> |r.value.1| < |toks|
    decreases |toks|, UNARY - k + 1
  {
    if k == UNARY then ParseUnary(toks) else
    match ParseLevel(k + 1, toks)
    case None => None
    case Some((e, rest)) => ParseMore(k, e, rest)
  }

  /** The operators of level `k` that follow an operand. */
  function ParseMore(k: nat, left: Expr, toks: seq<Token>): (r: Option<(Expr, seq<Token>)>)
    requires k < UNARY
    ensures r.Some? ==> |r.value.1| <= |toks|
    decreases |toks|, 0
  {
    if toks == [] || !toks[0].Bin? || Precedence(toks[0].op) != k then Some((left, toks)) else
    match ParseLevel(k + 1, toks[1..])
    case None => None
    case Some((right, rest)) => ParseMore(k, Binary(toks[0].op, left, right), rest)
  }

  /** What a parse means: the expression's spelling was consumed, the grammar derives it, and
      it stopped only where no operator of its level follows. */
  ghost predicate Parsed(k: nat, r: Option<(Expr, seq<Token>)>, toks: seq<Token>) {
    r.Some? ==>
      && Derivable(r.value.0, k)
      && toks == Spell(r.value.0) + r.value.1
      && (k < UNARY ==> !StartsWithOperator(r.value.1, k))
  }

  lemma {:induction false} ParseUnarySound(toks: seq<Token>)
    ensures Parsed(UNARY, ParseUnary(toks), toks)
    decreases |toks|, 0
  {
    if toks != [] {
      match toks[0]
      case Bang => ParseUnarySound(toks[1..]);
      case LPar => ParseLevelSound(0, toks[1..]);
      case _ =>
    }
  }

  lemma {:induction false} ParseLevelSound(k: nat, toks: seq<Token>)
    requires k <= UNARY
    ensures Parsed(k, ParseLevel(k, toks), toks)
    decreases |toks|, UNARY - k + 1
  {
    if k == UNARY {
      ParseUnarySound(toks);
    } else {
      ParseLevelSound(k + 1, toks);
      match ParseLevel(k + 1, toks)
      case None =>
      case Some((e, rest)) =>
        ParseMoreSound(k, e, rest);
    }
  }

  lemma {:induction false} ParseMoreSound(k: nat, left: Expr, toks: seq<Token>)
    requires k < UNARY && Derivable(left, k)
    requires !StartsWithOperator(toks, k + 1)
    ensures var r := ParseMore(k, left, toks);
            r.Some? ==>
              && Derivable(r.value.0, k)
              && Spell(left) + toks == Spell(r.value.0) + r.value.1
              && !StartsWithOperator(r.value.1, k)
    decreases |toks|, 0
  {
    if toks != [] && toks[0].Bin? && Precedence(toks[0].op) == k {
      ParseLevelSound(k + 1, toks[1..]);
      match ParseLevel(k + 1, toks[1..])
      case None =>
      case Some((right, rest)) =>
        var e := Binary(toks[0].op, left, right);
        assert Spell(left) + toks == Spell(e) + rest;
        ParseMoreSound(k, e, rest);
    }
  }

  /** The spelling of a derivable expression parses back to it, whatever follows, unless an
      operator that would continue it. */
  lemma {:induction false} ParseSpelled(e: Expr, k: nat, rest: seq<Token>)
    requires k <= UNARY && Derivable(e, k) && !StartsWithOperator(rest, k)
    ensures ParseLevel(k, Spell(e) + rest) == Some((e, rest))
    decreases e, UNARY - k, 1
  {
    if k < UNARY {
      ParseOperand(e, k, rest);
    } else {
      match e
      case Not(a) =>
        ParseSpelled(a, UNARY, rest);
        ReadNot(a, rest);
      case Paren(a) =>
        ParseSpelled(a, 0, [RPar] + rest);
        ReadParen(a, rest);
      case _ => ReadAtom(e, rest);
    }
  }

  lemma ReadNot(a: Expr, rest: seq<Token>)
    requires ParseUnary(Spell(a) + rest) == Some((a, rest))
    ensures ParseUnary(Spell(Not(a)) + rest) == Some((Not(a), rest))
  {
    assert (Spell(Not(a)) + rest)[1..] == Spell(a) + rest;
  }

  lemma ReadParen(a: Expr, rest: seq<Token>)
    requires ParseLevel(0, Spell(a) + ([RPar] + rest)) == Some((a, [RPar] + rest))
    ensures ParseUnary(Spell(Paren(a)) + rest) == Some((Paren(a), rest))
  {
    hide ParseLevel;
    assert (Spell(Paren(a)) + rest)[1..] == Spell(a) + ([RPar] + rest);
    assert ([RPar] + rest)[1..] == rest;
  }

  lemma ReadAtom(e: Expr, rest: seq<Token>)
    requires e.Number? || e.Symbol? || e.Defined?
    ensures ParseUnary(Spell(e) + rest) == Some((e, rest))
  {
    var toks := Spell(e) + rest;
    assert if e.Defined? then toks[4..] == rest else toks[1..] == rest;
  }

  /** As an operand of level `k`, followed perhaps by operators of that level. */
  lemma {:induction false} ParseOperand(e: Expr, k: nat, rest: seq<Token>)
    requires k < UNARY && Derivable(e, k) && !StartsWithOperator(rest, k + 1)
    ensures ParseLevel(k, Spell(e) + rest) == ParseMore(k, e, rest)
    decreases e, UNARY - k, 0
  {
    if e.Binary? && Precedence(e.op) == k {
      var tail := [Bin(e.op)] + Spell(e.right) + rest;
      assert Spell(e) + rest == Spell(e.left) + tail;
      ParseOperand(e.left, k, tail);
      assert tail[1..] == Spell(e.right) + rest;
      ParseSpelled(e.right, k + 1, rest);
    } else {
      ParseSpelled(e, k + 1, rest);
    }
  }

  /** A token string has one reading: equal spellings up to where no operator follows belong
      to equal expressions. */
  lemma Unambiguous(e: Expr, e': Expr, rest: seq<Token>, rest': seq<Token>)
    requires Derivable(e, 0) && Derivable(e', 0)
    requires !StartsWithOperator(rest, 0) && !StartsWithOperator(rest', 0)
    requires Spell(e) + rest == Spell(e') + rest'
    ensures e == e' && rest == rest'
  {
    ParseSpelled(e, 0, rest);
    ParseSpelled(e', 0, rest');
  }
}
