/**
 * Phase A of `medusa_parse_expression`: the shunting-yard pass that turns the
 * infix children of an expression into postfix order, driven by a stack
 * precedence table and an input precedence table.
 */
module ShuntingYard {
  import opened MedusaTypes
  import opened Syntax

  predicate AllOperators(s: seq<Token>) { forall k :: 0 <= k < |s| ==> IsOperator(s[k]) }

  predicate Additive(op: BinOp) { op == Add || op == Sub }

  /** `input_precedence_map`: the precedence of an operator that arrives from the input. */
  function InputPrecedence(t: Token): (p: nat)
    requires IsOperator(t)
    ensures p >= 1
  {
    if t.Op? then (if Additive(t.op) then 1 else 3)
    else if t.Cast? then 5
    else 50
  }

  /** `stack_precedence_map`: the precedence of an operator waiting on the stack. */
  function StackPrecedence(t: Token): (p: nat)
    requires IsOperator(t)
    ensures p > InputPrecedence(t)
  {
    if t.Op? then (if Additive(t.op) then 2 else 4)
    else if t.Cast? then 6
    else 51
  }

  /** The precedence of the top of the stack; an empty stack counts as the end marker's 0. */
  function TopPrecedence(stack: seq<Token>): (p: nat)
    requires AllOperators(stack)
    ensures stack == [] ==> p == 0
  {
    if stack == [] then 0 else StackPrecedence(stack[|stack| - 1])
  }

  /** `* / %` outrank `+ -` in both directions, and a cast outranks every binary operator. */
  lemma PrecedenceLevels(add: BinOp, mul: BinOp)
    requires Additive(add) && !Additive(mul)
    ensures InputPrecedence(Op(mul)) > StackPrecedence(Op(add))
    ensures StackPrecedence(Op(mul)) >= InputPrecedence(Op(add))
    ensures forall text :: StackPrecedence(Cast(text)) >= InputPrecedence(Op(mul)) >= InputPrecedence(Op(add))
  {
  }

  lemma {:induction false} ReversedPermutes(s: seq<Token>)
    ensures multiset(Reversed(s)) == multiset(s)
    decreases |s|
  {
    if s != [] {
      ReversedPermutes(s[..|s| - 1]);
      assert s == s[..|s| - 1] + [s[|s| - 1]];
    }
  }

  /**
   * One incoming operator: pop to the output while the top of the stack has a
   * stack precedence at least the operator's input precedence, then push it.
   */
  function PushOperator(out: seq<Token>, stack: seq<Token>, t: Token): (r: (seq<Token>, seq<Token>))
    requires IsOperator(t) && AllOperators(stack)
    ensures AllOperators(r.1)
    decreases |stack|
  {
    if stack != [] && StackPrecedence(stack[|stack| - 1]) >= InputPrecedence(t) then
      PushOperator(out + [stack[|stack| - 1]], stack[..|stack| - 1], t)
    else
      (out, stack + [t])
  }

  /** A push only moves tokens: nothing is lost or duplicated. */
  lemma {:induction false} PushPermutes(out: seq<Token>, stack: seq<Token>, t: Token)
    requires IsOperator(t) && AllOperators(stack)
    ensures var r := PushOperator(out, stack, t);
      multiset(r.0) + multiset(r.1) == multiset(out) + multiset(stack) + multiset{t}
    decreases |stack|
  {
    if stack != [] && StackPrecedence(stack[|stack| - 1]) >= InputPrecedence(t) {
      PushPermutes(out + [stack[|stack| - 1]], stack[..|stack| - 1], t);
      assert stack == stack[..|stack| - 1] + [stack[|stack| - 1]];
    }
  }

  /**
   * What a push leaves behind: the output grows by operators only, the pushed
   * operator is on top, and what lies beneath it no longer outranks it.
   */
  lemma {:induction false} PushShape(out: seq<Token>, stack: seq<Token>, t: Token)
    requires IsOperator(t) && AllOperators(stack)
    ensures var r := PushOperator(out, stack, t);
      |out| <= |r.0| && r.0 == out + r.0[|out|..] && AllOperators(r.0[|out|..]) &&
      |r.1| >= 1 && r.1[|r.1| - 1] == t && TopPrecedence(r.1[..|r.1| - 1]) < InputPrecedence(t)
    decreases |stack|
  {
    if stack != [] && StackPrecedence(stack[|stack| - 1]) >= InputPrecedence(t) {
      var out' := out + [stack[|stack| - 1]];
      PushShape(out', stack[..|stack| - 1], t);
      var r := PushOperator(out, stack, t);
      assert r.0 == out' + r.0[|out'|..];
      assert r.0[|out|..] == [stack[|stack| - 1]] + r.0[|out'|..];
    } else {
      assert (stack + [t])[..|stack|] == stack;
    }
  }

  /** Consume the remaining input, then drain the stack in last-in first-out order. */
  function Shunt(out: seq<Token>, stack: seq<Token>, rest: seq<Token>): seq<Token>
    requires AllOperators(stack)
    decreases |rest|
  {
    if rest == [] then out + Reversed(stack)
    else if IsOperand(rest[0]) then Shunt(out + [rest[0]], stack, rest[1..])
    else
      var pushed := PushOperator(out, stack, rest[0]);
      Shunt(pushed.0, pushed.1, rest[1..])
  }

  lemma {:induction false} ShuntPermutes(out: seq<Token>, stack: seq<Token>, rest: seq<Token>)
    requires AllOperators(stack)
    ensures multiset(Shunt(out, stack, rest)) == multiset(out) + multiset(stack) + multiset(rest)
    decreases |rest|
  {
    if rest == [] {
      ReversedPermutes(stack);
    } else {
      assert rest == [rest[0]] + rest[1..];
      if IsOperand(rest[0]) {
        ShuntPermutes(out + [rest[0]], stack, rest[1..]);
      } else {
        var pushed := PushOperator(out, stack, rest[0]);
        PushPermutes(out, stack, rest[0]);
        ShuntPermutes(pushed.0, pushed.1, rest[1..]);
      }
    }
  }

  /** The postfix order of an expression's children. */
  function Postfix(tokens: seq<Token>): seq<Token>
  {
    Shunt([], [], tokens)
  }

  /** The conversion is a permutation: every child is emitted exactly once. */
  lemma PostfixPermutes(tokens: seq<Token>)
    ensures multiset(Postfix(tokens)) == multiset(tokens)
  {
    ShuntPermutes([], [], tokens);
  }

  /** The operands of a token list, in order. */
  function Operands(s: seq<Token>): seq<Token>
  {
    if s == [] then [] else (if IsOperand(s[0]) then [s[0]] else []) + Operands(s[1..])
  }

  lemma {:induction false} OperandsAppend(a: seq<Token>, b: seq<Token>)
    ensures Operands(a + b) == Operands(a) + Operands(b)
    decreases |a|
  {
    if a == [] {
      assert a + b == b;
    } else {
      assert (a + b)[0] == a[0];
      assert (a + b)[1..] == a[1..] + b;
      OperandsAppend(a[1..], b);
    }
  }

  lemma {:induction false} OperandsOfOperators(s: seq<Token>)
    requires AllOperators(s)
    ensures Operands(s) == []
    decreases |s|
  {
    if s != [] {
      OperandsOfOperators(s[1..]);
    }
  }

  /** Pushing an operator moves only operators to the output. */
  lemma PushKeepsOperands(out: seq<Token>, stack: seq<Token>, t: Token)
    requires IsOperator(t) && AllOperators(stack)
    ensures Operands(PushOperator(out, stack, t).0) == Operands(out)
  {
    var popped := PushOperator(out, stack, t).0;
    PushShape(out, stack, t);
    OperandsAppend(out, popped[|out|..]);
    OperandsOfOperators(popped[|out|..]);
  }

  /** One pop: the top of the stack outranks the incoming operator. */
  lemma PushPops(out: seq<Token>, stack: seq<Token>, t: Token)
    requires IsOperator(t) && AllOperators(stack)
    requires stack != [] && StackPrecedence(stack[|stack| - 1]) >= InputPrecedence(t)
    ensures PushOperator(out, stack, t) == PushOperator(out + [stack[|stack| - 1]], stack[..|stack| - 1], t)
  {
  }

  /** The incoming operator goes on the stack once the top no longer outranks it. */
  lemma PushStops(out: seq<Token>, stack: seq<Token>, t: Token)
    requires IsOperator(t) && AllOperators(stack)
    requires TopPrecedence(stack) < InputPrecedence(t)
    ensures PushOperator(out, stack, t) == (out, stack + [t])
  {
  }

  lemma PushOntoEmpty(out: seq<Token>, t: Token)
    requires IsOperator(t)
    ensures PushOperator(out, [], t) == (out, [t])
  {
    assert [] + [t] == [t];
  }

  lemma PushPopsOne(out: seq<Token>, top: Token, t: Token)
    requires IsOperator(t) && IsOperator(top)
    requires StackPrecedence(top) >= InputPrecedence(t)
    ensures PushOperator(out, [top], t) == (out + [top], [t])
  {
    PushPops(out, [top], t);
    assert [top][..0] == [];
    PushOntoEmpty(out + [top], t);
  }

  lemma ShuntOperand(out: seq<Token>, stack: seq<Token>, x: Token, rest: seq<Token>)
    requires AllOperators(stack) && IsOperand(x)
    ensures Shunt(out, stack, [x] + rest) == Shunt(out + [x], stack, rest)
  {
    assert ([x] + rest)[1..] == rest;
  }

  lemma ShuntOperator(out: seq<Token>, stack: seq<Token>, x: Token, rest: seq<Token>)
    requires AllOperators(stack) && IsOperator(x)
    ensures Shunt(out, stack, [x] + rest) ==
      Shunt(PushOperator(out, stack, x).0, PushOperator(out, stack, x).1, rest)
  {
    assert ([x] + rest)[1..] == rest;
  }

  lemma {:induction false} ShuntKeepsOperandOrder(out: seq<Token>, stack: seq<Token>, rest: seq<Token>)
    requires AllOperators(stack)
    ensures Operands(Shunt(out, stack, rest)) == Operands(out) + Operands(rest)
    decreases |rest|
  {
    if rest == [] {
      OperandsAppend(out, Reversed(stack));
      OperandsOfOperators(Reversed(stack));
    } else {
      var x := rest[0];
      assert rest == [x] + rest[1..];
      OperandsAppend([x], rest[1..]);
      if IsOperand(x) {
        ShuntOperand(out, stack, x, rest[1..]);
        ShuntKeepsOperandOrder(out + [x], stack, rest[1..]);
        OperandsAppend(out, [x]);
      } else {
        var pushed := PushOperator(out, stack, x);
        ShuntOperator(out, stack, x, rest[1..]);
        ShuntKeepsOperandOrder(pushed.0, pushed.1, rest[1..]);
        PushKeepsOperands(out, stack, x);
      }
    }
  }

  /** Operands reach the output in input order: the conversion only moves operators. */
  lemma PostfixKeepsOperandOrder(tokens: seq<Token>)
    ensures Operands(Postfix(tokens)) == Operands(tokens)
  {
    ShuntKeepsOperandOrder([], [], tokens);
  }

  /**
   * The shunting-yard loops as the compiler runs them, over a growable output
   * and operator stack. The "Unexpected case" panic (popping an empty stack)
   * is unreachable: the assertion before each pop proves it.
   */
  method ToPostfix(tokens: seq<Token>) returns (output: seq<Token>)
    ensures output == Postfix(tokens)
    ensures multiset(output) == multiset(tokens)
    ensures Operands(output) == Operands(tokens)
  {
    output := [];
    var stack: seq<Token> := [];
    var i := 0;
    while i < |tokens|
      invariant 0 <= i <= |tokens|
      invariant AllOperators(stack)
      invariant Shunt(output, stack, tokens[i..]) == Postfix(tokens)
    {
      var token := tokens[i];
      assert tokens[i..] == [token] + tokens[i + 1..];
      if IsOperand(token) {
        ShuntOperand(output, stack, token, tokens[i + 1..]);
        output := output + [token];
      } else {
        ShuntOperator(output, stack, token, tokens[i + 1..]);
        ghost var pushed := PushOperator(output, stack, token);
        while true
          invariant AllOperators(stack)
          invariant PushOperator(output, stack, token) == pushed
          decreases |stack|
        {
          var stackPrecedence := TopPrecedence(stack);
          var inputPrecedence := InputPrecedence(token);
          if stackPrecedence >= inputPrecedence {
            assert stack != [];
            PushPops(output, stack, token);
            output := output + [stack[|stack| - 1]];
            stack := stack[..|stack| - 1];
          } else {
            PushStops(output, stack, token);
            stack := stack + [token];
            break;
          }
        }
      }
      i := i + 1;
    }
    while stack != []
      invariant AllOperators(stack)
      invariant output + Reversed(stack) == Postfix(tokens)
      decreases |stack|
    {
      assert Reversed(stack) == [stack[|stack| - 1]] + Reversed(stack[..|stack| - 1]);
      output := output + [stack[|stack| - 1]];
      stack := stack[..|stack| - 1];
    }
    PostfixPermutes(tokens);
    PostfixKeepsOperandOrder(tokens);
  }

  /** An expression opening with an operand, an operator and an operand: both operands out, the operator waiting. */
  lemma OpensWithOperand(a: Token, x: Token, b: Token, rest: seq<Token>)
    requires IsOperand(a) && IsOperator(x) && IsOperand(b)
    ensures Postfix([a, x, b] + rest) == Shunt([a, b], [x], rest)
  {
    assert [a, x, b] + rest == [a] + ([x] + ([b] + rest));
    ShuntOperand([], [], a, [x] + ([b] + rest));
    assert [] + [a] == [a];
    PushOntoEmpty([a], x);
    ShuntOperator([a], [], x, [b] + rest);
    ShuntOperand([a], [x], b, rest);
    assert [a] + [b] == [a, b];
  }

  /** An expression opening with an operator and an operand: the operand out, the operator waiting. */
  lemma OpensWithOperator(x: Token, a: Token, rest: seq<Token>)
    requires IsOperator(x) && IsOperand(a)
    ensures Postfix([x, a] + rest) == Shunt([a], [x], rest)
  {
    assert [x, a] + rest == [x] + ([a] + rest);
    PushOntoEmpty([], x);
    ShuntOperator([], [], x, [a] + rest);
    ShuntOperand([], [x], a, rest);
    assert [] + [a] == [a];
  }

  /** A waiting operator that outranks the next one is released before the operand after it. */
  lemma ReleasedBeforeOperand(out: seq<Token>, top: Token, y: Token, c: Token)
    requires IsOperator(top) && IsOperator(y) && IsOperand(c)
    requires StackPrecedence(top) >= InputPrecedence(y)
    ensures Shunt(out, [top], [y, c]) == out + [top, c, y]
  {
    assert [y, c] == [y] + [c];
    PushPopsOne(out, top, y);
    ShuntOperator(out, [top], y, [c]);
    assert [c] == [c] + [];
    ShuntOperand(out + [top], [y], c, []);
    assert Reversed([y]) == [y];
    assert out + [top] + [c] + [y] == out + [top, c, y];
  }

  /** A waiting operator outranked by the next one stays below it until the end. */
  lemma HeldBeforeOperand(out: seq<Token>, top: Token, y: Token, c: Token)
    requires IsOperator(top) && IsOperator(y) && IsOperand(c)
    requires StackPrecedence(top) < InputPrecedence(y)
    ensures Shunt(out, [top], [y, c]) == out + [c, y, top]
  {
    assert [y, c] == [y] + [c];
    PushStops(out, [top], y);
    ShuntOperator(out, [top], y, [c]);
    assert [c] == [c] + [];
    ShuntOperand(out, [top, y], c, []);
    assert Reversed([top, y]) == [y, top];
    assert out + [c] + [y, top] == out + [c, y, top];
  }

  /** Operators of one level come out left-associative: `a - b - c` is `(a - b) - c`. */
  lemma SameLevelIsLeftAssociative(a: Token, b: Token, c: Token, o1: BinOp, o2: BinOp)
    requires IsOperand(a) && IsOperand(b) && IsOperand(c)
    requires Additive(o1) == Additive(o2)
    ensures Postfix([a, Op(o1), b, Op(o2), c]) == [a, b, Op(o1), c, Op(o2)]
  {
    assert [a, Op(o1), b, Op(o2), c] == [a, Op(o1), b] + [Op(o2), c];
    OpensWithOperand(a, Op(o1), b, [Op(o2), c]);
    ReleasedBeforeOperand([a, b], Op(o1), Op(o2), c);
  }

  /** `a + b * c` is `a + (b * c)`: a multiplicative operator outranks an additive one before it. */
  lemma MultiplicativeBindsTighterOnRight(a: Token, b: Token, c: Token, add: BinOp, mul: BinOp)
    requires IsOperand(a) && IsOperand(b) && IsOperand(c)
    requires Additive(add) && !Additive(mul)
    ensures Postfix([a, Op(add), b, Op(mul), c]) == [a, b, c, Op(mul), Op(add)]
  {
    assert [a, Op(add), b, Op(mul), c] == [a, Op(add), b] + [Op(mul), c];
    OpensWithOperand(a, Op(add), b, [Op(mul), c]);
    HeldBeforeOperand([a, b], Op(add), Op(mul), c);
  }

  /** `a * b + c` is `(a * b) + c`: an additive operator releases a multiplicative one before it. */
  lemma MultiplicativeBindsTighterOnLeft(a: Token, b: Token, c: Token, add: BinOp, mul: BinOp)
    requires IsOperand(a) && IsOperand(b) && IsOperand(c)
    requires Additive(add) && !Additive(mul)
    ensures Postfix([a, Op(mul), b, Op(add), c]) == [a, b, Op(mul), c, Op(add)]
  {
    assert [a, Op(mul), b, Op(add), c] == [a, Op(mul), b] + [Op(add), c];
    OpensWithOperand(a, Op(mul), b, [Op(add), c]);
    ReleasedBeforeOperand([a, b], Op(mul), Op(add), c);
  }

  /** A cast is a prefix operator: it follows its operand and precedes the next binary operator. */
  lemma CastAppliesToNextOperand(text: string, a: Token, b: Token, op: BinOp)
    requires IsOperand(a) && IsOperand(b)
    ensures Postfix([Cast(text), a]) == [a, Cast(text)]
    ensures Postfix([Cast(text), a, Op(op), b]) == [a, Cast(text), b, Op(op)]
  {
    assert [Cast(text), a] == [Cast(text), a] + [];
    OpensWithOperator(Cast(text), a, []);
    assert Reversed([Cast(text)]) == [Cast(text)];
    assert [Cast(text), a, Op(op), b] == [Cast(text), a] + [Op(op), b];
    OpensWithOperator(Cast(text), a, [Op(op), b]);
    ReleasedBeforeOperand([a], Cast(text), Op(op), b);
  }

  /** A sub-expression after a binary operator is stacked on it and comes out first at the end. */
  lemma NestedLast(a: Token, x: Token, n: Token)
    requires IsOperand(a) && x.Op? && n.Nested?
    ensures Postfix([a, x] + [n]) == [a, n, x]
  {
    assert [a, x] + [n] == [a] + ([x] + [n]);
    ShuntOperand([], [], a, [x] + [n]);
    assert [] + [a] == [a];
    PushOntoEmpty([a], x);
    ShuntOperator([a], [], x, [n]);
    assert [n] == [n] + [];
    PushStops([a], [x], n);
    ShuntOperator([a], [x], n, []);
    assert Reversed([x, n]) == [n, x];
  }

  /**
   * A parenthesised sub-expression is delayed on the stack like an operator and
   * released by the next binary operator, so it lands where its value is used.
   */
  lemma NestedBehavesAsOperand(inner: seq<Token>, a: Token, op: BinOp)
    requires IsOperand(a)
    ensures Postfix([Nested(inner), Op(op), a]) == [Nested(inner), a, Op(op)]
    ensures Postfix([a, Op(op), Nested(inner)]) == [a, Nested(inner), Op(op)]
  {
    assert [Nested(inner), Op(op), a] == [Nested(inner)] + [Op(op), a];
    PushOntoEmpty([], Nested(inner));
    ShuntOperator([], [], Nested(inner), [Op(op), a]);
    ReleasedBeforeOperand([], Nested(inner), Op(op), a);
    assert [a, Op(op), Nested(inner)] == [a, Op(op)] + [Nested(inner)];
    NestedLast(a, Op(op), Nested(inner));
  }

  /**
   * Two casts in a row: the outer cast's stack precedence (6) is at least the
   * inner one's input precedence (5), so the outer cast is released ahead of
   * the operand, and only the inner cast follows it.
   */
  lemma StackedCastsComeOutFirst(t1: string, t2: string, a: Token)
    requires IsOperand(a)
    ensures Postfix([Cast(t1), Cast(t2), a]) == [Cast(t1), a, Cast(t2)]
  {
    assert [Cast(t1), Cast(t2), a] == [Cast(t1)] + [Cast(t2), a];
    PushOntoEmpty([], Cast(t1));
    ShuntOperator([], [], Cast(t1), [Cast(t2), a]);
    ReleasedBeforeOperand([], Cast(t1), Cast(t2), a);
  }
}
