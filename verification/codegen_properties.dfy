/**
 * What the expression and statement compilers promise their callers: the
 * typing rules and error cases of each statement, the order in which an
 * `if` lays out its jumps and labels, and worked examples of the
 * precedence rules carried through to the emitted text.
 */
module CodegenProperties {
  import opened MedusaTypes
  import opened Syntax
  import opened ShuntingYard
  import opened Codegen
  import opened Allocation

  /* ---------------- expressions ---------------- */

  /** `a + b * c` multiplies first: the product's operands are pushed, multiplied, then added to `a`. */
  lemma MultiplicationFirst(assets: Assets, st: State, a: string, b: string, c: string, add: BinOp, mul: BinOp)
    requires Additive(add) && !Additive(mul)
    ensures Translate(assets, st, [IntLit(a), Op(add), IntLit(b), Op(mul), IntLit(c)])
      == Ok((Emit(st, [PushInt(a), PushInt(b), PushInt(c), IntArith(mul), IntArith(add)]), Int))
  {
    var tokens := [IntLit(a), Op(add), IntLit(b), Op(mul), IntLit(c)];
    MultiplicativeBindsTighterOnRight(IntLit(a), IntLit(b), IntLit(c), add, mul);
    var s1 := Emit(st, [PushInt(a)]);
    var s2 := Emit(s1, [PushInt(b)]);
    var s3 := Emit(s2, [PushInt(c)]);
    var s4 := Emit(s3, [IntArith(mul)]);
    var s5 := Emit(s4, [IntArith(add)]);
    var post := [IntLit(a), IntLit(b), IntLit(c), Op(mul), Op(add)];
    assert Walk(assets, s4, post[4..], [Int, Int], tokens) == Ok((s5, [Int])) by {
      assert post[4..][1..] == [] && [Int, Int][..0] + [Int] == [Int];
    }
    assert Walk(assets, s3, post[3..], [Int, Int, Int], tokens) == Ok((s5, [Int])) by {
      assert post[3..][1..] == post[4..] && [Int, Int, Int][..1] + [Int] == [Int, Int];
    }
    assert Walk(assets, s2, post[2..], [Int, Int], tokens) == Ok((s5, [Int])) by {
      assert post[2..][1..] == post[3..] && [Int, Int] + [Int] == [Int, Int, Int];
    }
    assert Walk(assets, s1, post[1..], [Int], tokens) == Ok((s5, [Int])) by {
      assert post[1..][1..] == post[2..] && [Int] + [Int] == [Int, Int];
    }
    assert Walk(assets, st, post, [], tokens) == Ok((s5, [Int])) by {
      assert post[1..] == post[1..] && [] + [Int] == [Int];
    }
    assert s5 == Emit(st, [PushInt(a), PushInt(b), PushInt(c), IntArith(mul), IntArith(add)]);
  }

  /** The postfix form of `a op b`. */
  lemma BinaryPostfix(a: Token, op: BinOp, b: Token)
    requires IsOperand(a) && IsOperand(b)
    ensures Postfix([a, Op(op), b]) == [a, b, Op(op)]
  {
    OpensWithOperand(a, Op(op), b, []);
    assert [a, Op(op), b] + [] == [a, Op(op), b];
  }

  /** Arithmetic on two strings is refused, concatenation included. */
  lemma StringArithmeticRejected(assets: Assets, st: State, a: string, b: string, op: BinOp)
    ensures Translate(assets, st, [StrLit(a), Op(op), StrLit(b)]) == Err(NonNumericOperand(Str))
  {
    var tokens := [StrLit(a), Op(op), StrLit(b)];
    BinaryPostfix(StrLit(a), op, StrLit(b));
    var post := [StrLit(a), StrLit(b), Op(op)];
    var s1 := PushString(st, a);
    var s2 := PushString(s1, b);
    assert Walk(assets, s2, post[2..], [Str, Str], tokens) == Err(NonNumericOperand(Str));
    assert Walk(assets, s1, post[1..], [Str], tokens) == Err(NonNumericOperand(Str)) by {
      assert post[1..][1..] == post[2..] && [Str] + [Str] == [Str, Str];
    }
    assert Walk(assets, st, post, [], tokens) == Err(NonNumericOperand(Str)) by {
      assert [] + [Str] == [Str];
    }
  }

  /** An integer and a float cannot meet in one operator; there is no implicit conversion. */
  lemma MixedOperandsRejected(assets: Assets, st: State, a: string, b: string, op: BinOp)
    ensures Translate(assets, st, [IntLit(a), Op(op), FloatLit(b)]) == Err(OperandTypesDiffer(Int, Float))
  {
    var tokens := [IntLit(a), Op(op), FloatLit(b)];
    BinaryPostfix(IntLit(a), op, FloatLit(b));
    var post := [IntLit(a), FloatLit(b), Op(op)];
    var s1 := Emit(st, [PushInt(a)]);
    var s2 := Emit(s1, [PushFloat(b)]);
    assert Walk(assets, s2, post[2..], [Int, Float], tokens) == Err(OperandTypesDiffer(Int, Float));
    assert Walk(assets, s1, post[1..], [Int], tokens) == Err(OperandTypesDiffer(Int, Float)) by {
      assert post[1..][1..] == post[2..] && [Int] + [Float] == [Int, Float];
    }
    assert Walk(assets, st, post, [], tokens) == Err(OperandTypesDiffer(Int, Float)) by {
      assert [] + [Int] == [Int];
    }
  }

  /** A cast to the type the operand already has emits nothing and keeps the tag. */
  lemma NoOpCastKeepsTag(assets: Assets, st: State, t: DataType, types: seq<DataType>)
    ensures CastStep(assets, st, CastText(t), types + [t]) == Ok((st, types + [t]))
  {
    assert (types + [t])[..|types|] == types;
  }

  /** So `(int) d` is the integer `d`, with nothing emitted for the cast. */
  lemma NoOpCastOfLiteral(assets: Assets, st: State, d: string)
    ensures Translate(assets, st, [Cast(CastText(Int)), IntLit(d)]) == Ok((Emit(st, [PushInt(d)]), Int))
  {
    var tokens := [Cast(CastText(Int)), IntLit(d)];
    CastAppliesToNextOperand(CastText(Int), IntLit(d), IntLit(d), Add);
    var s1 := Emit(st, [PushInt(d)]);
    NoOpCastKeepsTag(assets, s1, Int, []);
    assert Walk(assets, s1, [Cast(CastText(Int))], [Int], tokens) == Ok((s1, [Int]));
    assert Walk(assets, st, Postfix(tokens), [], tokens) == Ok((s1, [Int]));
  }

  /**
   * As written, the same cast pops the operand's tag and never pushes it
   * back: after `(int) d` the type stack is empty, and the final pop of the
   * expression fails.
   */
  lemma NoOpCastAsWrittenDropsTag(assets: Assets, st: State, t: DataType, types: seq<DataType>)
    ensures CastStepAsWritten(assets, st, CastText(t), types + [t]) == Ok((st, types))
  {
    assert (types + [t])[..|types|] == types;
  }

  /**
   * Stacked casts do not compose: in `(t1)(t2) a` the outer cast comes out
   * of the shunting yard ahead of `a` and finds no type to convert, so the
   * expression is an error before anything is emitted.
   */
  lemma StackedCastsFail(assets: Assets, st: State, t1: string, t2: string, a: Token)
    requires IsOperand(a)
    ensures Translate(assets, st, [Cast(t1), Cast(t2), a]) == Err(EmptyTypeStack)
  {
    var tokens := [Cast(t1), Cast(t2), a];
    StackedCastsComeOutFirst(t1, t2, a);
    assert Walk(assets, st, Postfix(tokens), [], tokens) == Err(EmptyTypeStack);
  }

  /** A cast to another type converts, through a template or `cvtsd2si`, and retypes the top tag. */
  lemma ConvertingCast(assets: Assets, st: State, from: DataType, to: DataType, types: seq<DataType>)
    requires from != to
    ensures var r := CastStep(assets, st, CastText(to), types + [from]);
      && (r.Ok? <==> (from == Float && to == Int) || ConversionTemplate(from, to) in assets)
      && (r.Ok? ==>
            r.value.1 == types + [to] && r.value.0.text == st.text + [r.value.0.text[|st.text|]]
            && |r.value.0.text| == |st.text| + 1)
      && (r.Ok? && from == Float && to == Int ==> r.value.0 == Emit(st, [FloatToInt]))
  {
    assert (types + [from])[..|types|] == types;
    var r := CastStep(assets, st, CastText(to), types + [from]);
    if r.Ok? {
      assert r.value.0.text == st.text + [r.value.0.text[|st.text|]];
    }
  }

  /* ---------------- statements ---------------- */

  /**
   * A declaration records the type before anything else, so a redeclaration
   * overwrites the earlier type, and a bare one changes nothing but the
   * table.
   */
  lemma DeclarationOutcome(assets: Assets, st: State, keyword: string, target: DeclTarget)
    ensures var r := CompileDeclaration(assets, st, keyword, target);
      && (TypeOfKeyword(keyword).None? ==> r == Err(UnknownTypeKeyword(keyword)))
      && (TypeOfKeyword(keyword).Some? && target.Bare? ==>
            r.Ok? && r.value.variables == st.variables[target.name := TypeOfKeyword(keyword).value]
            && r.value.text == st.text && r.value.data == st.data
            && r.value.labelIndex == st.labelIndex && r.value.variableIndex == st.variableIndex)
      && (r.Ok? ==>
            TypeOfKeyword(keyword).Some? && target.name in r.value.variables
            && r.value.variables == st.variables[target.name := TypeOfKeyword(keyword).value])
  {
    if TypeOfKeyword(keyword).Some? {
      var t := TypeOfKeyword(keyword).value;
      var st1 := Declare(st, target.name, t);
      match target
      case Bare(_) =>
      case WithValue(name, value) =>
        AssignmentAllocates(assets, st1, name, value);
        AssignmentKeepsVariables(assets, st1, name, value);
      case WithInput(name) =>
        InputKeepsVariables(assets, st1, name);
    }
  }

  lemma AssignmentKeepsVariables(assets: Assets, st: State, name: string, value: Option<seq<Token>>)
    ensures var r := CompileAssignment(assets, st, name, value); r.Ok? ==> r.value.variables == st.variables
  {
    if name in st.variables && value.Some? {
      TranslateAllocates(assets, st, value.value);
    }
  }

  lemma InputKeepsVariables(assets: Assets, st: State, name: string)
    ensures var r := CompileInput(assets, st, name); r.Ok? ==> r.value.variables == st.variables
  {
  }

  /**
   * The initialiser is compiled after the name is in the table: a variable
   * may be initialised from itself, whatever it was declared as before.
   */
  lemma SelfInitialisation(assets: Assets, st: State, name: string)
    ensures CompileDeclaration(assets, st, "int", WithValue(name, Some([Ident(name)])))
      == Ok(Emit(Declare(st, name, Int), [LoadValue(name), StoreQword(name)]))
  {
    var st1 := Declare(st, name, Int);
    var tokens := [Ident(name)];
    assert Postfix(tokens) == tokens by {
      assert tokens == [Ident(name)] + [];
      ShuntOperand([], [], Ident(name), []);
    }
    assert st1.variables[name] == Int;
    assert Walk(assets, st1, tokens, [], tokens) == Ok((Emit(st1, [LoadValue(name)]), [Int])) by {
      assert tokens[1..] == [] && [] + [Int] == [Int];
    }
    assert Translate(assets, st1, tokens) == Ok((Emit(st1, [LoadValue(name)]), Int));
    assert StoreValue(Emit(st1, [LoadValue(name)]), name, Int) == Emit(st1, [LoadValue(name), StoreQword(name)]) by {
      assert st1.text + [LoadValue(name)] + [StoreQword(name)] == st1.text + [LoadValue(name), StoreQword(name)];
    }
  }

  /**
   * An assignment fails on an undeclared target or on a value of another
   * type; otherwise a number is stored with one pop and a string is copied
   * by a loop that takes two fresh labels. The table is left as it was.
   */
  lemma AssignmentOutcome(assets: Assets, st: State, name: string, expr: seq<Token>)
    ensures var r := CompileAssignment(assets, st, name, Some(expr));
      var e := Translate(assets, st, expr);
      && (name !in st.variables ==> r == Err(UndeclaredVariable(name)))
      && (name in st.variables && e.Err? ==> r == Err(e.error))
      && (name in st.variables && e.Ok? && e.value.1 != st.variables[name] ==>
            r == Err(AssignmentTypeMismatch(st.variables[name], e.value.1)))
      && (name in st.variables && e.Ok? && e.value.1 == st.variables[name] ==>
            var after := e.value.0;
            && r.Ok? && r.value.variables == st.variables
            && (IsNumeric(e.value.1) ==>
                  r.value.text == after.text + [StoreQword(name)] && r.value.labelIndex == after.labelIndex)
            && (e.value.1 == Str ==>
                  r.value.text == after.text + [Labelled(StoreString(name), [after.labelIndex, after.labelIndex + 1])]
                  && r.value.labelIndex == after.labelIndex + 2))
  {
    if name in st.variables {
      TranslateAllocates(assets, st, expr);
    }
  }

  /** An output of a string prints it as is; a number is first converted by its template. */
  lemma OutputOutcome(assets: Assets, st: State, expr: seq<Token>)
    ensures var r := CompileOutput(assets, st, expr);
      var e := Translate(assets, st, expr);
      && (e.Err? ==> r == Err(e.error))
      && (e.Ok? && e.value.1 == Str ==> r == Ok(Print(e.value.0)))
      && (e.Ok? && e.value.1 == Int ==> (r.Ok? <==> IntToString in assets))
      && (e.Ok? && e.value.1 == Float ==> (r.Ok? <==> FloatToString in assets))
      && (r.Ok? ==>
            r.value.labelIndex >= st.labelIndex + 2
            && r.value.text[|r.value.text| - 1] == Labelled(PrintString, [r.value.labelIndex - 2, r.value.labelIndex - 1]))
  {
    TranslateAllocates(assets, st, expr);
  }

  /**
   * An input reads a line through its template, then stores it: a number
   * is converted by another template and popped into the variable, a string
   * copied by a loop that takes two labels.
   */
  lemma InputOutcome(assets: Assets, st: State, name: string)
    ensures var r := CompileInput(assets, st, name);
      && (ReadInput !in assets ==> r == Err(UnreadableTemplate))
      && (ReadInput in assets && name !in st.variables ==> r == Err(UndeclaredVariable(name)))
      && (ReadInput in assets && name in st.variables ==>
            var t := st.variables[name];
            && (r.Ok? <==> (t == Int ==> StringToInt in assets) && (t == Float ==> StringToFloat in assets))
            && (r.Ok? && IsNumeric(t) ==> r.value.text[|r.value.text| - 1] == StoreQword(name))
            && (r.Ok? && t == Str ==> r.value.text[|r.value.text| - 1] == Labelled(StoreInput(name), [r.value.labelIndex - 2, r.value.labelIndex - 1])))
  {
  }

  /** A declaration that reads its value compiles whenever the templates it needs are there. */
  lemma DeclarationWithInput(assets: Assets, st: State, t: DataType, name: string)
    requires ReadInput in assets && StringToInt in assets && StringToFloat in assets
    ensures var r := CompileDeclaration(assets, st, Keyword(t), WithInput(name));
      r.Ok? && r.value.variables == st.variables[name := t]
  {
    InputOutcome(assets, Declare(st, name, t), name);
  }

  /**
   * Both sides of a comparison must have one type, and only integers
   * compile; the skip jump is taken exactly when the condition is false.
   */
  lemma ConditionOutcome(assets: Assets, st: State, left: seq<Token>, cmp: Cmp, right: seq<Token>)
    ensures var r := CompileCondition(assets, st, left, cmp, right);
      var l := Translate(assets, st, left);
      && (l.Err? ==> r == Err(l.error))
      && (l.Ok? ==>
            var rr := Translate(assets, l.value.0, right);
            && (rr.Err? ==> r == Err(rr.error))
            && (rr.Ok? && l.value.1 != rr.value.1 ==> r == Err(ComparisonTypesDiffer(l.value.1, rr.value.1)))
            && (rr.Ok? && l.value.1 == rr.value.1 == Str && cmp != Eq && cmp != Ne ==> r == Err(StringOrdering))
            && (r.Ok? <==> rr.Ok? && l.value.1 == Int && rr.value.1 == Int))
      && (r.Ok? ==> forall a: int, b: int :: Taken(r.value.1, a, b) <==> !Holds(cmp, a, b))
  {
  }

  /**
   * The layout of an `if`: right after the condition's text, the operands
   * are popped and compared, and the jump goes to the first label numbered
   * after the condition. The compiled then-block follows. Without `else`
   * the first label closes the text. With `else`, the then-block ends in a
   * jump to a second, later label, the first label follows that jump
   * directly, the compiled else-block follows, and the second label closes
   * the text.
   */
  lemma IfLayout(assets: Assets, st: State, s: Stmt, fin: State) returns (cond: State, jump: Jump, thenEnd: State)
    requires s.If? && CompileIf(assets, st, s) == Ok(fin)
    ensures CompileCondition(assets, st, s.left, s.cmp, s.right) == Ok((cond, jump))
    ensures forall a: int, b: int :: Taken(jump, a, b) <==> !Holds(s.cmp, a, b)
    ensures st.labelIndex <= cond.labelIndex < fin.labelIndex
    ensures |cond.text| + 2 < |fin.text| && fin.text[..|cond.text|] == cond.text
    ensures fin.text[|cond.text|] == PopOperands && fin.text[|cond.text| + 1] == CompareAndSkip(jump, cond.labelIndex)
    ensures CompileBlock(assets, ThenStart(cond, jump), s.thenBlock) == Ok(thenEnd)
    ensures |thenEnd.text| < |fin.text| && fin.text[..|thenEnd.text|] == thenEnd.text
    ensures s.elseBlock.NoElse? ==> fin.text == thenEnd.text + [Label(cond.labelIndex)]
    ensures s.elseBlock.NoElse? ==> fin.text[|fin.text| - 1] == Label(cond.labelIndex)
    ensures s.elseBlock.Else? ==>
      var e := CompileBlock(assets, ElseStart(thenEnd, cond.labelIndex), s.elseBlock.stmts);
      e.Ok? && fin.text == e.value.text + [Label(thenEnd.labelIndex)]
    ensures s.elseBlock.Else? ==>
      exists mid, skipElse ::
        && |cond.text| + 2 < mid < |fin.text| - 1 && cond.labelIndex < skipElse < fin.labelIndex
        && fin.text[mid - 1] == JumpTo(skipElse) && fin.text[mid] == Label(cond.labelIndex)
        && fin.text[|fin.text| - 1] == Label(skipElse)
  {
    var c := CompileCondition(assets, st, s.left, s.cmp, s.right);
    cond, jump := c.value.0, c.value.1;
    ConditionAllocates(assets, st, s.left, s.cmp, s.right);
    if s.elseBlock.NoElse? {
      thenEnd := ThenLayout(assets, cond, jump, s, fin);
    } else {
      var mid, skipElse, elseEnd;
      mid, skipElse, thenEnd, elseEnd := ElseLayout(assets, cond, jump, s, fin);
    }
  }

  /** The text behind the condition when there is no `else`: the then-block, then `label_skip`. */
  lemma ThenLayout(assets: Assets, cond: State, jump: Jump, s: Stmt, fin: State) returns (thenEnd: State)
    requires s.If? && s.elseBlock.NoElse? && CompileBranches(assets, cond, jump, s) == Ok(fin)
    ensures cond.labelIndex < fin.labelIndex
    ensures |cond.text| + 2 < |fin.text| && fin.text[..|cond.text|] == cond.text
    ensures fin.text[|cond.text|] == PopOperands && fin.text[|cond.text| + 1] == CompareAndSkip(jump, cond.labelIndex)
    ensures CompileBlock(assets, ThenStart(cond, jump), s.thenBlock) == Ok(thenEnd)
    ensures fin.labelIndex == thenEnd.labelIndex && fin.text == thenEnd.text + [Label(cond.labelIndex)]
    ensures fin.text[..|thenEnd.text|] == thenEnd.text
    ensures fin.text[|fin.text| - 1] == Label(cond.labelIndex)
  {
    var skip := cond.labelIndex;
    var s3 := ThenStart(cond, jump);
    thenEnd := CompileBlock(assets, s3, s.thenBlock).value;
    BlockGrows(assets, s3, s.thenBlock);
    Rest(s3.text, thenEnd.text);
    assert fin == Emit(thenEnd, [Label(skip)]);
  }

  /**
   * The text behind the condition when there is an `else`: the then-block,
   * the jump to `label_skip_else`, `label_skip` (at `mid`), the else-block,
   * then `label_skip_else`.
   */
  lemma ElseLayout(assets: Assets, cond: State, jump: Jump, s: Stmt, fin: State)
    returns (mid: nat, skipElse: nat, thenEnd: State, elseEnd: State)
    requires s.If? && s.elseBlock.Else? && CompileBranches(assets, cond, jump, s) == Ok(fin)
    ensures |cond.text| + 2 < mid < |fin.text| - 1 && cond.labelIndex < skipElse < fin.labelIndex
    ensures fin.text[..|cond.text|] == cond.text
    ensures fin.text[|cond.text|] == PopOperands && fin.text[|cond.text| + 1] == CompareAndSkip(jump, cond.labelIndex)
    ensures fin.text[mid - 1] == JumpTo(skipElse) && fin.text[mid] == Label(cond.labelIndex)
    ensures fin.text[|fin.text| - 1] == Label(skipElse)
    ensures CompileBlock(assets, ThenStart(cond, jump), s.thenBlock) == Ok(thenEnd)
    ensures skipElse == thenEnd.labelIndex && mid == |thenEnd.text| + 1
    ensures fin.text[..|thenEnd.text|] == thenEnd.text
    ensures CompileBlock(assets, ElseStart(thenEnd, cond.labelIndex), s.elseBlock.stmts) == Ok(elseEnd)
    ensures fin.labelIndex == elseEnd.labelIndex && fin.text == elseEnd.text + [Label(skipElse)]
  {
    var skip := cond.labelIndex;
    var s3 := ThenStart(cond, jump);
    thenEnd := CompileBlock(assets, s3, s.thenBlock).value;
    BlockGrows(assets, s3, s.thenBlock);
    skipElse := thenEnd.labelIndex;
    var s5 := ElseStart(thenEnd, skip);
    elseEnd := CompileBlock(assets, s5, s.elseBlock.stmts).value;
    BlockGrows(assets, s5, s.elseBlock.stmts);
    assert fin == Emit(elseEnd, [Label(skipElse)]);
    mid := |thenEnd.text| + 1;
    Rest(s3.text, thenEnd.text);
    Rest(s5.text, elseEnd.text);
    assert elseEnd.text[..|cond.text| + 2] == s3.text;
    assert elseEnd.text[..|thenEnd.text|] == thenEnd.text;
  }

  /** A block only appends text and only takes label numbers. */
  lemma BlockGrows(assets: Assets, st: State, ss: seq<Stmt>)
    ensures var r := CompileBlock(assets, st, ss);
      r.Ok? ==> st.labelIndex <= r.value.labelIndex && st.text <= r.value.text
  {
    BlockAllocates(assets, st, ss);
  }
}
