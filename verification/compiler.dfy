/**
 * The compiler as the program runs it: one `CompilerContext` object whose
 * counters, text, data and symbol table each emitter updates in place. Every
 * method is proved to leave the context exactly as the matching function of
 * module Codegen computes it, or to stop with the same error.
 */
module Compiler {
  import opened MedusaTypes
  import opened Syntax
  import opened ShuntingYard
  import opened TemplateMerger
  import opened Codegen

  class CompilerContext {
    var variableIndex: nat
    var labelIndex: nat
    var assemblyText: seq<Instr>
    var assemblyData: seq<DataLine>
    var variables: map<string, DataType>

    /** The context as a value. */
    function Snapshot(): State
      reads this
    {
      State(variableIndex, labelIndex, assemblyText, assemblyData, variables)
    }

    /** A method ended as the specification says: in its final state, or with its error. */
    ghost predicate Ends(spec: Result<State>, out: Outcome)
      reads this
    {
      if out.Pass? then spec == Ok(Snapshot()) else spec == Err(out.error)
    }

    /** The same for a method that also computes a value. */
    ghost predicate EndsWith<T>(spec: Result<(State, T)>, r: Result<T>)
      reads this
    {
      if r.Ok? then spec == Ok((Snapshot(), r.value)) else spec == Err(r.error)
    }

    /** A fresh context: counters at zero, no text, no data, no variables. */
    constructor ()
      ensures Snapshot() == Initial
    {
      variableIndex := 0;
      labelIndex := 0;
      assemblyText := [];
      assemblyData := [];
      variables := map[];
    }

    /* ---------------- templates ---------------- */

    /**
     * Merges a template: its label names are numbered, and the merged text
     * is appended. The name-to-number map is returned: it is the numbering
     * `Expand` uses (lemma NumbersInOrderIsNumbering), so the merged text is
     * `Rewrite(body, 0, labels)`.
     */
    method MergeTemplate(assets: Assets, tmpl: Template) returns (out: Outcome, labels: map<string, nat>)
      modifies this
      ensures Ends(Merge(assets, old(Snapshot()), tmpl), out)
      ensures out.Pass? ==> NumbersInOrder(labels, LabelOrder(assets[tmpl]), old(labelIndex))
    {
      if tmpl !in assets {
        return Fail(UnreadableTemplate), map[];
      }
      var body := assets[tmpl];
      var first := labelIndex;
      var next;
      labels, next := NumberLabels(Scan(body, 0), first);
      labelIndex := next;
      assemblyText := assemblyText + [MergedPiece(tmpl, body, first)];
      out := Pass;
    }

    /* ---------------- expressions ---------------- */

    /**
     * An expression: converted to postfix, then evaluated token by token
     * with a stack of operand types; its type is the one left on top.
     */
    method ParseExpression(assets: Assets, tokens: seq<Token>) returns (r: Result<DataType>)
      modifies this
      ensures EndsWith(Translate(assets, old(Snapshot()), tokens), r)
      decreases tokens, 1
    {
      var post := ToPostfix(tokens);
      assert forall t :: t in post ==> t in multiset(tokens);
      var types: seq<DataType> := [];
      var i := 0;
      while i < |post|
        invariant i <= |post|
        invariant forall t :: t in post[i..] ==> t in tokens
        invariant Walk(assets, old(Snapshot()), post, [], tokens) == Walk(assets, Snapshot(), post[i..], types, tokens)
      {
        assert post[i] in post;
        assert post[i..][0] == post[i] && post[i..][1..] == post[i + 1..];
        var step := ApplyToken(assets, post[i], types, tokens);
        if step.Err? {
          return Err(step.error);
        }
        types := step.value;
        i := i + 1;
      }
      if types == [] {
        return Err(EmptyTypeStack);
      }
      r := Ok(types[|types| - 1]);
    }

    /** One postfix token: an operand is pushed, an operator applied to the types on top. */
    method ApplyToken(assets: Assets, tok: Token, types: seq<DataType>, ghost origin: seq<Token>) returns (r: Result<seq<DataType>>)
      requires tok in origin
      modifies this
      ensures EndsWith(Step(assets, old(Snapshot()), tok, types, origin), r)
      decreases origin, 0
    {
      match tok
      case IntLit(digits) =>
        assemblyText := assemblyText + [PushInt(digits)];
        r := Ok(types + [Int]);
      case FloatLit(digits) =>
        assemblyText := assemblyText + [PushFloat(digits)];
        r := Ok(types + [Float]);
      case StrLit(raw) =>
        assemblyData := assemblyData + [StringConstant(variableIndex, raw)];
        assemblyText := assemblyText + [Labelled(StringCopy(variableIndex), [labelIndex, labelIndex + 1])];
        variableIndex := variableIndex + 1;
        labelIndex := labelIndex + 2;
        r := Ok(types + [Str]);
      case Ident(name) =>
        if name !in variables {
          return Err(UndeclaredVariable(name));
        }
        var t := variables[name];
        assemblyText := assemblyText + [if t == Str then LoadAddress(name) else LoadValue(name)];
        r := Ok(types + [t]);
      case Nested(inner) =>
        var e := ParseExpression(assets, inner);
        if e.Err? {
          return Err(e.error);
        }
        r := Ok(types + [e.value]);
      case Op(op) =>
        r := ApplyOperator(op, types);
      case Cast(text) =>
        r := ApplyCast(assets, text, types);
    }

    /** An arithmetic operator: both operands of one numeric type, and no float modulo. */
    method ApplyOperator(op: BinOp, types: seq<DataType>) returns (r: Result<seq<DataType>>)
      modifies this
      ensures EndsWith(BinaryStep(old(Snapshot()), op, types), r)
    {
      if |types| < 2 {
        return Err(EmptyTypeStack);
      }
      var left, right := types[|types| - 2], types[|types| - 1];
      if left != right {
        return Err(OperandTypesDiffer(left, right));
      }
      if !IsNumeric(left) {
        return Err(NonNumericOperand(left));
      }
      if op == Mod && left == Float {
        return Err(ModuloOnFloat);
      }
      assemblyText := assemblyText + [if left == Int then IntArith(op) else FloatArith(op)];
      r := Ok(types[..|types| - 2] + [left]);
    }

    /** A cast: nothing to do to the same type, float to int inline, any other pair by its template. */
    method ApplyCast(assets: Assets, text: string, types: seq<DataType>) returns (r: Result<seq<DataType>>)
      modifies this
      ensures EndsWith(CastStep(assets, old(Snapshot()), text, types), r)
    {
      if types == [] {
        return Err(EmptyTypeStack);
      }
      var from := types[|types| - 1];
      var target := CastTarget(text);
      if target.None? {
        return Err(UnknownCast(text));
      }
      var to := target.value;
      if from == to {
        return Ok(types);
      }
      if from == Float && to == Int {
        assemblyText := assemblyText + [FloatToInt];
      } else {
        var merged, labels := MergeTemplate(assets, ConversionTemplate(from, to));
        if merged.Fail? {
          return Err(merged.error);
        }
      }
      r := Ok(types[..|types| - 1] + [to]);
    }

    /* ---------------- statements ---------------- */

    method ParseDeclaration(assets: Assets, keyword: string, target: DeclTarget) returns (out: Outcome)
      modifies this
      ensures Ends(CompileDeclaration(assets, old(Snapshot()), keyword, target), out)
    {
      var t := TypeOfKeyword(keyword);
      if t.None? {
        return Fail(UnknownTypeKeyword(keyword));
      }
      variables := variables[target.name := t.value];
      match target
      case Bare(_) =>
        out := Pass;
      case WithValue(name, value) =>
        out := ParseAssignment(assets, name, value);
      case WithInput(name) =>
        out := ParseInput(assets, name);
    }

    method ParseAssignment(assets: Assets, name: string, value: Option<seq<Token>>) returns (out: Outcome)
      modifies this
      ensures Ends(CompileAssignment(assets, old(Snapshot()), name, value), out)
    {
      if name !in variables {
        return Fail(UndeclaredVariable(name));
      }
      var declared := variables[name];
      if value.None? {
        return Pass;
      }
      var e := ParseExpression(assets, value.value);
      if e.Err? {
        return Fail(e.error);
      }
      if e.value != declared {
        return Fail(AssignmentTypeMismatch(declared, e.value));
      }
      if declared == Str {
        assemblyText := assemblyText + [Labelled(StoreString(name), [labelIndex, labelIndex + 1])];
        labelIndex := labelIndex + 2;
      } else {
        assemblyText := assemblyText + [StoreQword(name)];
      }
      out := Pass;
    }

    method ParseOutput(assets: Assets, expr: seq<Token>) returns (out: Outcome)
      modifies this
      ensures Ends(CompileOutput(assets, old(Snapshot()), expr), out)
    {
      var e := ParseExpression(assets, expr);
      if e.Err? {
        return Fail(e.error);
      }
      out := ConvertToText(assets, e.value);
      if out.Fail? {
        return;
      }
      assemblyText := assemblyText + [Labelled(PrintString, [labelIndex, labelIndex + 1])];
      labelIndex := labelIndex + 2;
    }

    /** A number on the stack is turned into text by its conversion template; a string is text already. */
    method ConvertToText(assets: Assets, t: DataType) returns (out: Outcome)
      modifies this
      ensures Ends(ToText(assets, old(Snapshot()), t), out)
    {
      if t == Str {
        return Pass;
      }
      var labels;
      out, labels := MergeTemplate(assets, if t == Int then IntToString else FloatToString);
    }

    method ParseInput(assets: Assets, name: string) returns (out: Outcome)
      modifies this
      ensures Ends(CompileInput(assets, old(Snapshot()), name), out)
    {
      var merged, labels := MergeTemplate(assets, ReadInput);
      if merged.Fail? {
        return merged;
      }
      if name !in variables {
        return Fail(UndeclaredVariable(name));
      }
      var t := variables[name];
      if t == Str {
        assemblyText := assemblyText + [Labelled(StoreInput(name), [labelIndex, labelIndex + 1])];
        labelIndex := labelIndex + 2;
      } else {
        merged, labels := MergeTemplate(assets, if t == Int then StringToInt else StringToFloat);
        if merged.Fail? {
          return merged;
        }
        assemblyText := assemblyText + [StoreQword(name)];
      }
      out := Pass;
    }

    method ParseIf(assets: Assets, s: Stmt) returns (out: Outcome)
      requires s.If?
      modifies this
      ensures Ends(CompileIf(assets, old(Snapshot()), s), out)
      decreases s, 1
    {
      var left := ParseExpression(assets, s.left);
      if left.Err? {
        return Fail(left.error);
      }
      var right := ParseExpression(assets, s.right);
      if right.Err? {
        return Fail(right.error);
      }
      if left.value != right.value {
        return Fail(ComparisonTypesDiffer(left.value, right.value));
      }
      var jump := ConditionJump(left.value, s.cmp);
      if jump.Err? {
        return Fail(jump.error);
      }
      out := ParseBranches(assets, jump.value, s);
    }

    /** The then-block behind its skip jump, and the else-block, if any, behind a jump from the end of it. */
    method ParseBranches(assets: Assets, jump: Jump, s: Stmt) returns (out: Outcome)
      requires s.If?
      modifies this
      ensures Ends(CompileBranches(assets, old(Snapshot()), jump, s), out)
      decreases s, 0
    {
      var skip := labelIndex;
      labelIndex := skip + 1;
      assemblyText := assemblyText + [PopOperands, CompareAndSkip(jump, skip)];
      ghost var thenStart := Snapshot();
      out := ParseBlock(assets, s.thenBlock);
      if out.Fail? {
        return;
      }
      assert CompileBlock(assets, thenStart, s.thenBlock) == Ok(Snapshot());
      match s.elseBlock
      case NoElse =>
        assemblyText := assemblyText + [Label(skip)];
      case Else(elseBlock) =>
        var skipElse := labelIndex;
        labelIndex := skipElse + 1;
        assemblyText := assemblyText + [JumpTo(skipElse), Label(skip)];
        ghost var elseStart := Snapshot();
        out := ParseBlock(assets, elseBlock);
        if out.Fail? {
          return;
        }
        assert CompileBlock(assets, elseStart, elseBlock) == Ok(Snapshot());
        assemblyText := assemblyText + [Label(skipElse)];
    }

    method ParseStatement(assets: Assets, s: Stmt) returns (out: Outcome)
      modifies this
      ensures Ends(CompileStmt(assets, old(Snapshot()), s), out)
      decreases s, 2
    {
      match s
      case Declaration(keyword, target) =>
        out := ParseDeclaration(assets, keyword, target);
      case Assignment(name, value) =>
        out := ParseAssignment(assets, name, value);
      case Output(expr) =>
        out := ParseOutput(assets, expr);
      case Input(name) =>
        out := ParseInput(assets, name);
      case If(_, _, _, _, _) =>
        out := ParseIf(assets, s);
      case EndOfInput =>
        out := Pass;
      case Unsupported =>
        out := Fail(UnexpectedStatement);
    }

    /** The statements in order, stopping at the first error. */
    method ParseBlock(assets: Assets, ss: seq<Stmt>) returns (out: Outcome)
      modifies this
      ensures Ends(CompileBlock(assets, old(Snapshot()), ss), out)
      decreases ss
    {
      var i := 0;
      while i < |ss|
        invariant i <= |ss|
        invariant CompileBlock(assets, old(Snapshot()), ss) == CompileBlock(assets, Snapshot(), ss[i..])
      {
        assert ss[i..][0] == ss[i] && ss[i..][1..] == ss[i + 1..];
        out := ParseStatement(assets, ss[i]);
        if out.Fail? {
          return;
        }
        i := i + 1;
      }
      out := Pass;
    }

    /* ---------------- the storage section ---------------- */

    /** The storage section is appended to the data section. */
    method EmitStorage()
      modifies this
      ensures Snapshot() == old(Snapshot()).(data := assemblyData)
      ensures |old(assemblyData)| <= |assemblyData| && assemblyData[..|old(assemblyData)|] == old(assemblyData)
      ensures IsStorageSection(variables, assemblyData[|old(assemblyData)|..])
    {
      var lines := StorageSection(variables);
      assemblyData := assemblyData + lines;
      assert assemblyData[|old(assemblyData)|..] == lines;
    }

    /* ---------------- the inline conversions of the older compiler ---------------- */

    method EmitIntToString()
      modifies this
      ensures Snapshot() == InlineIntToString(old(Snapshot()))
    {
      var l := labelIndex;
      assemblyText := assemblyText + [Labelled(IntToStringInline, [l, l + 1, l + 2, l + 3])];
      labelIndex := l + 4;
    }

    method EmitStringToInt()
      modifies this
      ensures Snapshot() == InlineStringToInt(old(Snapshot()))
    {
      var l := labelIndex;
      assemblyText := assemblyText + [Labelled(StringToIntInline, [l, l + 1, l + 2, l + 3, l + 4])];
      labelIndex := l + 5;
    }
  }

  /**
   * A whole program: the statements compiled into a fresh context, then one
   * storage line per declared variable appended to the data section.
   */
  method CompileFromText(assets: Assets, prog: seq<Stmt>) returns (r: Result<State>)
    ensures r.Err? <==> CompileProgram(assets, prog).Err?
    ensures r.Err? ==> r.error == CompileProgram(assets, prog).error
    ensures r.Ok? ==>
      var st := CompileProgram(assets, prog).value;
      && r.value == st.(data := r.value.data)
      && |st.data| <= |r.value.data| && r.value.data[..|st.data|] == st.data
      && IsStorageSection(st.variables, r.value.data[|st.data|..])
  {
    var context := new CompilerContext();
    var out := context.ParseBlock(assets, prog);
    if out.Fail? {
      return Err(out.error);
    }
    context.EmitStorage();
    r := Ok(context.Snapshot());
  }

  /**
   * Each label name not seen before, in the order the matches come, takes
   * the next number from `first` on; `next` is where the counter ends.
   */
  method NumberLabels(matches: seq<Placeholder>, first: nat) returns (labels: map<string, nat>, next: nat)
    ensures NumbersInOrder(labels, Dedup(Names(matches)), first)
    ensures next == first + |Dedup(Names(matches))|
  {
    labels := map[];
    next := first;
    ghost var order: seq<string> := [];
    var i := 0;
    while i < |matches|
      invariant i <= |matches|
      invariant order == Dedup(Names(matches[..i]))
      invariant NumbersInOrder(labels, order, first)
      invariant next == first + |order|
    {
      var name := matches[i].name;
      NamesSnoc(matches, i);
      DedupSnoc(Names(matches[..i]), name);
      NumberedKey(labels, order, first, name);
      if name !in labels {
        NumbersInOrderGrow(labels, order, first, name);
        labels := labels[name := next];
        next := next + 1;
        order := order + [name];
      }
      i := i + 1;
    }
    assert matches[..i] == matches;
  }

  /* The steps of the numbering loop: a name not seen before is numbered next. */

  lemma NamesSnoc(ps: seq<Placeholder>, i: nat)
    requires i < |ps|
    ensures Names(ps[..i + 1]) == Names(ps[..i]) + [ps[i].name]
  {
    assert ps[..i + 1][..i] == ps[..i];
  }

  lemma DedupSnoc(names: seq<string>, x: string)
    ensures Dedup(names + [x]) == if x in Dedup(names) then Dedup(names) else Dedup(names) + [x]
  {
    assert (names + [x])[..|names|] == names;
  }

  /** `labels` numbers the names of `order` by position from `first`, and holds nothing else. */
  ghost predicate NumbersInOrder(labels: map<string, nat>, order: seq<string>, first: nat)
  {
    && |labels| == |order|
    && forall k :: 0 <= k < |order| ==> order[k] in labels && labels[order[k]] == first + k
  }

  /** Such a map is the numbering the merged text is rewritten with. */
  lemma NumbersInOrderIsNumbering(labels: map<string, nat>, order: seq<string>, first: nat)
    requires Distinct(order) && NumbersInOrder(labels, order, first)
    ensures labels == Numbering(order, first)
  {
    NumberedKeys(labels, order, first);
    var n := Numbering(order, first);
    forall x | x in labels
      ensures x in n && labels[x] == n[x]
    {
      var k :| 0 <= k < |order| && order[k] == x;
    }
  }

  /** A name is numbered exactly when it is in the order. */
  lemma NumberedKey(labels: map<string, nat>, order: seq<string>, first: nat, x: string)
    requires Distinct(order) && NumbersInOrder(labels, order, first)
    ensures x in labels <==> x in order
  {
    NumberedKeys(labels, order, first);
  }

  /** Numbering one more name. */
  lemma NumbersInOrderGrow(labels: map<string, nat>, order: seq<string>, first: nat, x: string)
    requires NumbersInOrder(labels, order, first) && x !in labels
    ensures NumbersInOrder(labels[x := first + |order|], order + [x], first)
  {
  }

  /** The keys of such a map are the names of `order`. */
  lemma NumberedKeys(labels: map<string, nat>, order: seq<string>, first: nat)
    requires Distinct(order) && NumbersInOrder(labels, order, first)
    ensures labels.Keys == set x | x in order
  {
    DistinctCardinality(order);
    SubsetOfSameSize((set x | x in order), labels.Keys);
  }

  lemma SubsetOfSameSize<T>(a: set<T>, b: set<T>)
    requires a <= b && |a| == |b|
    ensures a == b
  {
    if a != {} {
      var x :| x in a;
      SubsetOfSameSize(a - {x}, b - {x});
    }
  }

  /** One storage line per variable, sized by its type, in whatever order the table yields them. */
  method StorageSection(variables: map<string, DataType>) returns (lines: seq<DataLine>)
    ensures IsStorageSection(variables, lines)
  {
    lines := [];
    var done: set<string> := {};
    while done != variables.Keys
      invariant done <= variables.Keys
      invariant StorageLines(variables, done, lines)
      decreases |variables.Keys - done|
    {
      var name :| name in variables.Keys - done;
      StorageLinesGrow(variables, done, lines, name);
      assert variables.Keys - (done + {name}) < variables.Keys - done;
      lines := lines + [VariableStorage(name, StorageFor(variables[name]))];
      done := done + {name};
    }
    StorageLinesComplete(variables, lines);
  }

  /** Storage lines for the variables named in `done`, one each, sized by type. */
  ghost predicate StorageLines(vars: map<string, DataType>, done: set<string>, lines: seq<DataLine>)
  {
    StorageShape(vars, done, lines) && StorageCover(vars, done, lines)
  }

  /** As many lines as names, each a storage line for a distinct name of `done`, sized by its type. */
  ghost predicate StorageShape(vars: map<string, DataType>, done: set<string>, lines: seq<DataLine>)
  {
    && |lines| == |done|
    && (forall k :: 0 <= k < |lines| ==>
          lines[k].VariableStorage? && lines[k].name in done && lines[k].name in vars
          && lines[k].storage == StorageFor(vars[lines[k].name]))
    && (forall a, b :: 0 <= a < b < |lines| ==> lines[a].name != lines[b].name)
  }

  /** Every name of `done` is a variable with its storage line. */
  ghost predicate StorageCover(vars: map<string, DataType>, done: set<string>, lines: seq<DataLine>)
  {
    forall x :: x in done ==> x in vars && exists k :: 0 <= k < |lines| && lines[k] == VariableStorage(x, StorageFor(vars[x]))
  }

  lemma StorageLinesGrow(vars: map<string, DataType>, done: set<string>, lines: seq<DataLine>, name: string)
    requires StorageLines(vars, done, lines) && name in vars && name !in done
    ensures StorageLines(vars, done + {name}, lines + [VariableStorage(name, StorageFor(vars[name]))])
  {
    StorageShapeGrows(vars, done, lines, name);
    StorageCoverGrows(vars, done, lines, name);
  }

  lemma StorageShapeGrows(vars: map<string, DataType>, done: set<string>, lines: seq<DataLine>, name: string)
    requires StorageShape(vars, done, lines) && StorageCover(vars, done, lines) && name in vars && name !in done
    ensures StorageShape(vars, done + {name}, lines + [VariableStorage(name, StorageFor(vars[name]))])
  {
  }

  lemma StorageCoverGrows(vars: map<string, DataType>, done: set<string>, lines: seq<DataLine>, name: string)
    requires StorageCover(vars, done, lines) && name in vars
    ensures StorageCover(vars, done + {name}, lines + [VariableStorage(name, StorageFor(vars[name]))])
  {
    var line := VariableStorage(name, StorageFor(vars[name]));
    var grown := lines + [line];
    forall x | x in done + {name}
      ensures exists k :: 0 <= k < |grown| && grown[k] == VariableStorage(x, StorageFor(vars[x]))
    {
      if x == name {
        assert grown[|lines|] == line;
      } else {
        var k :| 0 <= k < |lines| && lines[k] == VariableStorage(x, StorageFor(vars[x]));
        assert grown[k] == lines[k];
      }
    }
  }

  lemma StorageLinesComplete(vars: map<string, DataType>, lines: seq<DataLine>)
    requires StorageLines(vars, vars.Keys, lines)
    ensures IsStorageSection(vars, lines)
  {
    assert |vars.Keys| == |vars|;
  }
}
