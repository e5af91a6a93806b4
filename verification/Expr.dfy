/**
 The assembler's expressions: the parser's buffer of postfix tokens, and the stack machine that evaluates
 them.  The machine has room for five values and does not look whether they are used up.
 */
module Expr {

  import opened Basics
  import opened Word32

  const DEPTH: nat := 5    // of evaluate's stack
  const ROOM: nat := 20    // of the buffer, the end mark included

  datatype Op = Plus | Minus | Times | Over | ShiftLeft | ShiftRight

  datatype Token = Apply(op: Op) | Negate | Sym(id: nat) | Const(value: Word)

  // ----- arithmetic

  /** Products wrap like sums. */
  function Product(a: Word, b: nat): (c: Word)
  {
    if b == 0 then 0 else Add(Product(a, b - 1), a)
  }

  function Quotient(a: Word, b: nat): (c: Word)
    requires b > 0
    ensures c <= a
  {
    if a < b then 0 else 1 + Quotient(a - b, b)
  }

  function Negative(a: Word): (c: Word)
  {
    if a == 0 then 0 else M - a
  }

  /** Unsigned arithmetic; None where C promises nothing: division by 0 and shifts by more than 31. */
  function Calculate(op: Op, a: Word, b: Word): (c: Option<Word>)
  {
    match op
    case Plus => Some(Add(a, b))
    case Minus => Some(Add(a, Negative(b)))
    case Times => Some(Product(a, b))
    case Over => if b == 0 then None else Some(Quotient(a, b))
    case ShiftLeft => if b < 32 then Some(Product(a, Pow2(b))) else None
    case ShiftRight => if b < 32 then Some(Quotient(a, Pow2(b))) else None
  }

  /** The same in the numbers' own terms. */
  function Value(op: Op, a: Word, b: Word): (c: Option<Word>)
  {
    match op
    case Plus => Some((a + b) % M)
    case Minus => Some((a - b) % M)
    case Times => Some(a * b % M)
    case Over => if b == 0 then None else Some(QuotientOf(a, b))
    case ShiftLeft => if b < 32 then Some(a * Pow2(b) % M) else None
    case ShiftRight => if b < 32 then Some(QuotientOf(a, Pow2(b))) else None
  }

  function QuotientOf(a: Word, b: nat): (c: Word)
    requires b > 0
  {
    QuotientIs(a, b);
    a / b
  }

  lemma {:induction false} QuotientIs(a: Word, b: nat)
    requires b > 0
    ensures Quotient(a, b) == a / b
  {
    if a >= b {
      QuotientIs(a - b, b);
      var q, r := (a - b) / b, (a - b) % b;
      assert a - b == b * q + r;
      Distributes(b, q);
      QuotientUnique(a, b, q + 1, r);
    } else {
      QuotientUnique(a, b, 0, a);
    }
  }

  lemma Distributes(b: nat, q: nat)
    ensures b * q + b == b * (q + 1)
  {
  }

  lemma QuotientUnique(x: nat, b: nat, q: nat, r: nat)
    requires b > 0 && x == b * q + r && r < b
    ensures x / b == q
  {
    var p := x / b;
    assert x == b * p + x % b;
    if p < q {
      Distributes(b, p);
      Grows(b, p + 1, q);
    } else if p > q {
      Distributes(b, q);
      Grows(b, q + 1, p);
    }
  }

  lemma Grows(b: nat, p: nat, q: nat)
    requires p <= q
    ensures b * p <= b * q
  {
  }

  lemma SumIs(a: int, b: int)
    ensures (a % M + b) % M == (a + b) % M
  {
  }

  lemma {:induction false} ProductIs(a: Word, b: nat)
    ensures Product(a, b) == a * b % M
  {
    if b > 0 {
      ProductIs(a, b - 1);
      SumWraps(a * (b - 1), a);
      Distributes(a, b - 1);
    }
  }

  lemma SumWraps(x: nat, a: Word)
    ensures Add(x % M, a) == (x + a) % M
  {
    SumIs(x, a);
  }

  /** The operations are those of unsigned words. */
  lemma CalculateIsValue(op: Op, a: Word, b: Word)
    ensures Calculate(op, a, b) == Value(op, a, b)
    ensures Negative(a) == (0 - a) % M
  {
    match op
    case Times => ProductIs(a, b);
    case Over =>
      if b > 0 {
        QuotientIs(a, b);
      }
    case ShiftLeft => ProductIs(a, Pow2(b));
    case ShiftRight => QuotientIs(a, Pow2(b));
    case _ =>
  }

  // ----- the machine

  /** The machine has values on its stack; or it has overrun the stack; or it has come to a symbol or an
      operation that has no value. */
  datatype Machine = Running(stack: seq<Word>) | Overrun | Undefined

  function Pushed(stack: seq<Word>, w: Word): (m: Machine)
  {
    if |stack| == DEPTH then Overrun else Running(stack + [w])
  }

  /** One token. */
  function Turn(t: Token, env: seq<Word>, stack: seq<Word>): (m: Machine)
  {
    var n := |stack|;
    match t
    case Apply(op) =>
      if n < 2 then Undefined
      else
        var c := Calculate(op, stack[n - 2], stack[n - 1]);
        if c.None? then Undefined else Running(stack[..n - 2] + [c.value])
    case Negate => if n < 1 then Undefined else Running(stack[..n - 1] + [Negative(stack[n - 1])])
    case Sym(id) => if id < |env| then Pushed(stack, env[id]) else Undefined
    case Const(value) => Pushed(stack, value)
  }

  function Run(tokens: seq<Token>, env: seq<Word>, m: Machine): (m': Machine)
    decreases |tokens|
  {
    if tokens == [] || !m.Running? then m else Run(tokens[1..], env, Turn(tokens[0], env, m.stack))
  }

  /** evaluate; None where it gives no value that could be relied on. */
  function Evaluate(tokens: seq<Token>, env: seq<Word>): (w: Option<Word>)
  {
    var m := Run(tokens, env, Running([]));
    if m.Running? && m.stack != [] then Some(m.stack[|m.stack| - 1]) else None
  }

  // ----- what the parser turns into tokens

  datatype Tree = Leaf(id: nat) | Number(value: Word) | Neg(t: Tree) | Node(op: Op, left: Tree, right: Tree)

  function Postfix(t: Tree): (tokens: seq<Token>)
    ensures tokens != []
  {
    match t
    case Leaf(id) => [Sym(id)]
    case Number(value) => [Const(value)]
    case Neg(t) => Postfix(t) + [Negate]
    case Node(op, l, r) => Postfix(l) + Postfix(r) + [Apply(op)]
  }

  /** What an expression means, if anything. */
  function Meaning(t: Tree, env: seq<Word>): (w: Option<Word>)
  {
    match t
    case Leaf(id) => if id < |env| then Some(env[id]) else None
    case Number(value) => Some(value)
    case Neg(t) =>
      var a := Meaning(t, env);
      if a.None? then None else Some((0 - a.value) % M)
    case Node(op, l, r) =>
      var a, b := Meaning(l, env), Meaning(r, env);
      if a.None? || b.None? then None else Value(op, a.value, b.value)
  }

  /** The values that are on the stack at once. */
  function Need(t: Tree): (n: nat)
    ensures n > 0
  {
    match t
    case Leaf(_) => 1
    case Number(_) => 1
    case Neg(t) => Need(t)
    case Node(_, l, r) => if Need(l) >= 1 + Need(r) then Need(l) else 1 + Need(r)
  }

  lemma {:induction false} RunConcat(a: seq<Token>, b: seq<Token>, env: seq<Word>, m: Machine)
    ensures Run(a + b, env, m) == Run(b, env, Run(a, env, m))
    decreases |a|
  {
    if a == [] {
      assert a + b == b;
    } else if m.Running? {
      assert (a + b)[1..] == a[1..] + b;
      RunConcat(a[1..], b, env, Turn(a[0], env, m.stack));
    }
  }

  lemma OneToken(t: Token, env: seq<Word>, m: Machine)
    ensures Run([t], env, m) == if m.Running? then Turn(t, env, m.stack) else m
  {
    assert [t][1..] == [];
  }

  /** What the tokens of a tree do to a machine: they push its meaning if there is room for what it needs;
      if there is not, the stack is overrun, unless an operation on the way has no value. */
  ghost predicate Does(t: Tree, env: seq<Word>, stack: seq<Word>, m: Machine)
  {
    if |stack| + Need(t) <= DEPTH then
      m == if Meaning(t, env).Some? then Running(stack + [Meaning(t, env).value]) else Undefined
    else
      !m.Running? && (Meaning(t, env).Some? ==> m == Overrun)
  }

  lemma {:induction false} PostfixDoes(t: Tree, env: seq<Word>, stack: seq<Word>)
    requires |stack| <= DEPTH
    ensures Does(t, env, stack, Run(Postfix(t), env, Running(stack)))
  {
    match t
    case Leaf(id) => OneToken(Sym(id), env, Running(stack));
    case Number(value) => OneToken(Const(value), env, Running(stack));
    case Neg(u) =>
      var m := Run(Postfix(u), env, Running(stack));
      PostfixDoes(u, env, stack);
      RunConcat(Postfix(u), [Negate], env, Running(stack));
      OneToken(Negate, env, m);
      NegateDoes(u, env, stack, m);
    case Node(op, l, r) =>
      var m1 := Run(Postfix(l), env, Running(stack));
      var m2 := Run(Postfix(r), env, m1);
      PostfixDoes(l, env, stack);
      if m1.Running? {
        PostfixDoes(r, env, m1.stack);
      }
      RunConcat(Postfix(l), Postfix(r), env, Running(stack));
      RunConcat(Postfix(l) + Postfix(r), [Apply(op)], env, Running(stack));
      OneToken(Apply(op), env, m2);
      ApplyDoes(op, l, r, env, stack, m1, m2);
  }

  lemma NegateDoes(u: Tree, env: seq<Word>, stack: seq<Word>, m: Machine)
    requires Does(u, env, stack, m)
    ensures Does(Neg(u), env, stack, if m.Running? then Turn(Negate, env, m.stack) else m)
  {
    if m.Running? {
      assert m.stack[..|m.stack| - 1] == stack;
      CalculateIsValue(Minus, m.stack[|m.stack| - 1], 0);
    }
  }

  lemma ApplyDoes(op: Op, l: Tree, r: Tree, env: seq<Word>, stack: seq<Word>, m1: Machine, m2: Machine)
    requires |stack| <= DEPTH && Does(l, env, stack, m1)
    requires if m1.Running? then Does(r, env, m1.stack, m2) else m2 == m1
    ensures Does(Node(op, l, r), env, stack, if m2.Running? then Turn(Apply(op), env, m2.stack) else m2)
  {
    if m2.Running? {
      assert m2.stack == stack + [Meaning(l, env).value] + [Meaning(r, env).value];
      assert m2.stack[..|m2.stack| - 2] == stack;
      CalculateIsValue(op, Meaning(l, env).value, Meaning(r, env).value);
    }
  }

  /** The stack machine computes what an expression means if and only if it needs no more than five values; the
      stack is overrun if and only if it needs more and nothing stops the machine before. */
  lemma EvaluateIsMeaning(t: Tree, env: seq<Word>)
    ensures Evaluate(Postfix(t), env) == if Need(t) <= DEPTH then Meaning(t, env) else None
    ensures Run(Postfix(t), env, Running([])) == Overrun ==> Need(t) > DEPTH
    ensures Meaning(t, env).Some? ==>
              (Run(Postfix(t), env, Running([])) == Overrun <==> Need(t) > DEPTH)
              && (Evaluate(Postfix(t), env) == Meaning(t, env) <==> Need(t) <= DEPTH)
  {
    PostfixDoes(t, env, []);
  }

  /** Up to nine tokens cannot need more than five values. */
  lemma {:induction false} NeedIsHalf(t: Tree)
    ensures 2 * Need(t) <= |Postfix(t)| + 1
  {
    match t
    case Leaf(_) =>
    case Number(_) =>
    case Neg(u) => NeedIsHalf(u);
    case Node(_, l, r) =>
      NeedIsHalf(l);
      NeedIsHalf(r);
  }

  /** 1+(2+(3+(4+(5+6)))) */
  function SixDeep(): (t: Tree)
  {
    var one, two, three := Number(1), Number(2), Number(3);
    Node(Plus, one, Node(Plus, two, Node(Plus, three, Node(Plus, Number(4), Node(Plus, Number(5), Number(6))))))
  }

  /** The buffer takes it, and the stack is overrun. */
  lemma BufferIsNoGuard(env: seq<Word>)
    ensures |Postfix(SixDeep())| == 11 < ROOM
    ensures Need(SixDeep()) == 6 && Meaning(SixDeep(), env) == Some(21)
    ensures Run(Postfix(SixDeep()), env, Running([])) == Overrun
  {
    var t5 := Node(Plus, Number(5), Number(6));
    var t4 := Node(Plus, Number(4), t5);
    var t3 := Node(Plus, Number(3), t4);
    var t2 := Node(Plus, Number(2), t3);
    assert Need(t5) == 2 && Meaning(t5, env) == Some(11);
    assert Need(t4) == 3 && |Postfix(t4)| == 5 && Meaning(t4, env) == Some(15);
    assert Need(t3) == 4 && |Postfix(t3)| == 7 && Meaning(t3, env) == Some(18);
    assert Need(t2) == 5 && |Postfix(t2)| == 9 && Meaning(t2, env) == Some(20);
    EvaluateIsMeaning(SixDeep(), env);
  }

  // ----- in place

  class Buffer {
    const ebuf: array<Token>
    var emax: nat

    ghost predicate Valid()
      reads this
    {
      ebuf.Length == ROOM && emax < ROOM
    }

    ghost function Tokens(): (tokens: seq<Token>)
      requires Valid()
      reads this, ebuf
    {
      ebuf[..emax]
    }

    constructor ()
      ensures Valid() && fresh(ebuf) && Tokens() == []
    {
      ebuf, emax := new Token[ROOM](_ => Negate), 0;
    }

    /** efunction, esymbol, econstant; not ok where they croak. */
    method Put(t: Token) returns (ok: bool)
      requires Valid()
      modifies this`emax, ebuf
      ensures ok <==> |old(Tokens())| + 2 <= ROOM
      ensures ok ==> Valid() && Tokens() == old(Tokens()) + [t]
    {
      ebuf[emax] := t;
      emax := emax + 1;
      ok := emax != ROOM;
    }

    /** What the grammar's actions do for an expression: they fail if and only if the tokens and the end mark
        are more than the buffer holds. */
    method Parse(t: Tree) returns (ok: bool)
      requires Valid()
      modifies this`emax, ebuf
      ensures ok <==> |old(Tokens())| + |Postfix(t)| + 1 <= ROOM
      ensures ok ==> Valid() && Tokens() == old(Tokens()) + Postfix(t)
      decreases t, 1
    {
      match t
      case Leaf(id) => ok := Put(Sym(id));
      case Number(value) => ok := Put(Const(value));
      case Neg(u) => ok := ParseAnd(u, Negate);
      case Node(op, l, r) => ok := ParseBoth(op, l, r);
    }

    method ParseAnd(u: Tree, last: Token) returns (ok: bool)
      requires Valid()
      modifies this`emax, ebuf
      ensures ok <==> |old(Tokens())| + |Postfix(u) + [last]| + 1 <= ROOM
      ensures ok ==> Valid() && Tokens() == old(Tokens()) + (Postfix(u) + [last])
      decreases u, 2
    {
      ok := Parse(u);
      if ok {
        ok := Put(last);
      }
    }

    method ParseBoth(op: Op, l: Tree, r: Tree) returns (ok: bool)
      requires Valid()
      modifies this`emax, ebuf
      ensures ok <==> |old(Tokens())| + |Postfix(l) + Postfix(r) + [Apply(op)]| + 1 <= ROOM
      ensures ok ==> Valid() && Tokens() == old(Tokens()) + (Postfix(l) + Postfix(r) + [Apply(op)])
      decreases Node(op, l, r), 0
    {
      ghost var before := Tokens();
      ok := Parse(l);
      if ok {
        ok := ParseAnd(r, Apply(op));
      }
      TokensJoin(before, Postfix(l), Postfix(r), Apply(op));
    }

    static lemma TokensJoin(before: seq<Token>, a: seq<Token>, b: seq<Token>, c: Token)
      ensures before + a + (b + [c]) == before + (a + b + [c])
      ensures |b + [c]| == |b| + 1 && |a + b + [c]| == |a| + |b| + 1
    {
    }

    /** expression: the tokens, and an empty buffer. */
    method Take() returns (p: seq<Token>)
      requires Valid()
      modifies this`emax
      ensures Valid() && p == old(Tokens()) && Tokens() == []
    {
      p := ebuf[..emax];
      emax := 0;
    }
  }

  /** evaluate, on an array of five; None is returned where the program would go on without a right to. */
  method EvaluateInPlace(p: seq<Token>, env: seq<Word>) returns (w: Option<Word>)
    ensures w == Evaluate(p, env)
  {
    var stack := new Word[DEPTH];
    var si: nat := 0;
    for i := 0 to |p|
      invariant stack.Length == DEPTH && 0 <= si <= DEPTH
      invariant Run(p, env, Running([])) == Run(p[i..], env, Running(stack[..si]))
    {
      assert p[i..][1..] == p[i + 1..];
      var ok := true;
      ok, si := Step(p[i], env, stack, si);
      if !ok {
        return None;
      }
    }
    if si == 0 {
      return None;
    }
    return Some(stack[si - 1]);
  }

  /** The switch in evaluate. */
  method Step(t: Token, env: seq<Word>, stack: array<Word>, si: nat) returns (ok: bool, si': nat)
    requires stack.Length == DEPTH && si <= DEPTH
    modifies stack
    ensures si' <= DEPTH
    ensures var m := Turn(t, env, old(stack[..si])); if ok then m == Running(stack[..si']) else !m.Running?
  {
    ok, si' := true, si;
    match t
    case Apply(op) =>
      if si < 2 {
        return false, si;
      }
      si' := si - 1;
      var c := Calculate(op, stack[si' - 1], stack[si']);
      if c.None? {
        return false, si';
      }
      stack[si' - 1] := c.value;
      assert stack[..si'] == old(stack[..si])[..si - 2] + [c.value];
    case Negate =>
      if si < 1 {
        return false, si;
      }
      stack[si - 1] := Negative(stack[si - 1]);
      assert stack[..si] == old(stack[..si])[..si - 1] + [stack[si - 1]];
    case Sym(id) =>
      if si == DEPTH || id >= |env| {
        return false, si;
      }
      stack[si] := env[id];
      si' := si + 1;
      assert stack[..si'] == old(stack[..si]) + [env[id]];
    case Const(value) =>
      if si == DEPTH {
        return false, si;
      }
      stack[si] := value;
      si' := si + 1;
      assert stack[..si'] == old(stack[..si]) + [value];
  }
}
