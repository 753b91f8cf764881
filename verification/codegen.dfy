/**
 * The code generator as functions over a `CompilerContext` value: each
 * emitter reads the label and slot counters, bumps them, and appends
 * instruction records to the text and lines to the data section. A
 * `panic!`, `todo!()` or failed `unwrap` is an `Err`, and the compiler stops
 * at the first one.
 */
module Codegen {
  import opened MedusaTypes
  import opened Syntax
  import opened ShuntingYard
  import opened TemplateMerger

  /** The assembly templates the compiler merges; their bodies are inputs of the model. */
  datatype Template = IntToFloat | FloatToString | StringToFloat | IntToString | StringToInt | ReadInput

  type Assets = map<Template, string>

  /** The conditional jumps that skip a then-block. */
  datatype Jump = Jle | Jge | Jl | Jg | Jne | Je

  /**
   * Text that places labels of its own, with the label numbers it was handed,
   * in the order the emitter took them from the counter.
   */
  datatype LabelledKind =
    | StringCopy(slot: nat)                          // loop, break
    | MergedText(template: Template, first: nat)     // one per distinct placeholder name
    | StoreString(name: string)                      // loop, break
    | StoreInput(name: string)                       // loop, break
    | PrintString                                    // loop, break
    | Place                                          // the label line `label_N:` itself
    | IntToStringInline                              // loop, skip_negation, loop_2, break
    | StringToIntInline                              // if_true, if_false, loop, break, finished

  /** One piece of emitted text. */
  datatype Instr =
    | PushInt(digits: string)
    | PushFloat(digits: string)
    | LoadValue(name: string)
    | LoadAddress(name: string)
    | IntArith(op: BinOp)
    | FloatArith(op: BinOp)
    | FloatToInt
    | StoreQword(name: string)
    | PopOperands
    | CompareAndSkip(jump: Jump, target: nat)
    | JumpTo(target: nat)
    | Labelled(kind: LabelledKind, labels: seq<nat>)

  /** The line `label_N:`. */
  function Label(n: nat): Instr
  {
    Labelled(Place, [n])
  }

  /** Storage reserved for a variable: `dq 0` or `resb N`. */
  datatype Storage = Qword | Bytes(count: nat)

  datatype DataLine =
    | StringConstant(slot: nat, raw: string)
    | VariableStorage(name: string, storage: Storage)

  /** `CompilerContext` as a value. */
  datatype State = State(
    variableIndex: nat,
    labelIndex: nat,
    text: seq<Instr>,
    data: seq<DataLine>,
    variables: map<string, DataType>)

  const Initial: State := State(0, 0, [], [], map[])

  /** The numbers `lo` up to `hi`, ascending. */
  function Range(lo: nat, hi: nat): (r: seq<nat>)
    ensures |r| == if lo <= hi then hi - lo else 0
    decreases hi
  {
    if hi <= lo then [] else Range(lo, hi - 1) + [hi - 1]
  }

  function Emit(st: State, instrs: seq<Instr>): State
  {
    st.(text := st.text + instrs)
  }

  function Declare(st: State, name: string, t: DataType): State
  {
    st.(variables := st.variables[name := t])
  }

  /* ---------------- expressions ---------------- */

  /** Merging a template: its labels get the next numbers, one per distinct name. */
  function Merge(assets: Assets, st: State, tmpl: Template): Result<State>
  {
    if tmpl !in assets then Err(UnreadableTemplate)
    else
      Ok(st.(labelIndex := st.labelIndex + LabelCount(assets[tmpl]),
             text := st.text + [MergedPiece(tmpl, assets[tmpl], st.labelIndex)]))
  }

  /** How many labels a template body asks for: one per distinct name. */
  function LabelCount(body: string): nat
  {
    |LabelOrder(body)|
  }

  /** A template merged with its labels numbered from `first` on. */
  function MergedPiece(tmpl: Template, body: string, first: nat): Instr
  {
    Labelled(MergedText(tmpl, first), Range(first, first + LabelCount(body)))
  }

  /** The template that converts between two different types, except float to int, which is inline. */
  function ConversionTemplate(from: DataType, to: DataType): Template
    requires from != to && !(from == Float && to == Int)
  {
    match from
    case Int => if to == Float then IntToFloat else IntToString
    case Float => FloatToString
    case Str => if to == Int then StringToInt else StringToFloat
  }

  function Conversion(assets: Assets, st: State, from: DataType, to: DataType): Result<State>
    requires from != to
  {
    if from == Float && to == Int then Ok(Emit(st, [FloatToInt]))
    else Merge(assets, st, ConversionTemplate(from, to))
  }

  /** A string literal: a data slot for its text and two labels for the copy loop. */
  function PushString(st: State, raw: string): State
  {
    State(st.variableIndex + 1, st.labelIndex + 2,
          st.text + [Labelled(StringCopy(st.variableIndex), [st.labelIndex, st.labelIndex + 1])],
          st.data + [StringConstant(st.variableIndex, raw)],
          st.variables)
  }

  /** The typing rule of the arithmetic operators on the type stack. */
  function BinaryStep(st: State, op: BinOp, types: seq<DataType>): (r: Result<(State, seq<DataType>)>)
    ensures r.Ok? <==>
      |types| >= 2 && types[|types| - 2] == types[|types| - 1] && IsNumeric(types[|types| - 1])
      && !(op == Mod && types[|types| - 1] == Float)
    ensures r.Ok? ==> r.value.1 == types[..|types| - 2] + [types[|types| - 1]]
    ensures r.Ok? ==> r.value.0.labelIndex == st.labelIndex && r.value.0.variableIndex == st.variableIndex
    ensures |types| >= 2 && types[|types| - 2] != types[|types| - 1] ==>
      r == Err(OperandTypesDiffer(types[|types| - 2], types[|types| - 1]))
  {
    if |types| < 2 then Err(EmptyTypeStack)
    else
      var left, right := types[|types| - 2], types[|types| - 1];
      if left != right then Err(OperandTypesDiffer(left, right))
      else if !IsNumeric(left) then Err(NonNumericOperand(left))
      else if op == Mod && left == Float then Err(ModuloOnFloat)
      else Ok((Emit(st, [if left == Int then IntArith(op) else FloatArith(op)]), types[..|types| - 2] + [left]))
  }

  /** A cast retypes the top of the type stack; a cast to the type it already has does nothing. */
  function CastStep(assets: Assets, st: State, text: string, types: seq<DataType>): (r: Result<(State, seq<DataType>)>)
    ensures r.Ok? ==>
      |types| >= 1 && CastTarget(text).Some? && r.value.1 == types[..|types| - 1] + [CastTarget(text).value]
    ensures |types| >= 1 && CastTarget(text) == Some(types[|types| - 1]) ==> r == Ok((st, types))
    ensures types == [] ==> r == Err(EmptyTypeStack)
  {
    if types == [] then Err(EmptyTypeStack)
    else
      var from := types[|types| - 1];
      match CastTarget(text)
      case None => Err(UnknownCast(text))
      case Some(to) =>
        if from == to then
          assert types == types[..|types| - 1] + [to];
          Ok((st, types))
        else
          var st2 :- Conversion(assets, st, from, to);
          Ok((st2, types[..|types| - 1] + [to]))
  }

  /** The cast as the compiler writes it: `break 'cast` also skips pushing the type back. */
  function CastStepAsWritten(assets: Assets, st: State, text: string, types: seq<DataType>): Result<(State, seq<DataType>)>
  {
    if types == [] then Err(EmptyTypeStack)
    else
      var from := types[|types| - 1];
      match CastTarget(text)
      case None => Err(UnknownCast(text))
      case Some(to) =>
        if from == to then Ok((st, types[..|types| - 1]))
        else
          var st2 :- Conversion(assets, st, from, to);
          Ok((st2, types[..|types| - 1] + [to]))
  }

  /** An expression: convert to postfix, walk it with a type stack, and return the type on top. */
  function Translate(assets: Assets, st: State, tokens: seq<Token>): Result<(State, DataType)>
    decreases tokens, 1
  {
    var post := Postfix(tokens);
    PostfixPermutes(tokens);
    assert forall t :: t in post ==> t in multiset(tokens);
    var r :- Walk(assets, st, post, [], tokens);
    if r.1 == [] then Err(EmptyTypeStack) else Ok((r.0, r.1[|r.1| - 1]))
  }

  function Walk(assets: Assets, st: State, post: seq<Token>, types: seq<DataType>, origin: seq<Token>): Result<(State, seq<DataType>)>
    requires forall t :: t in post ==> t in origin
    decreases origin, 0, |post|
  {
    if post == [] then Ok((st, types))
    else
      var r :- Step(assets, st, post[0], types, origin);
      Walk(assets, r.0, post[1..], r.1, origin)
  }

  function Step(assets: Assets, st: State, tok: Token, types: seq<DataType>, origin: seq<Token>): Result<(State, seq<DataType>)>
    requires tok in origin
    decreases origin, 0, 0
  {
    match tok
    case IntLit(digits) => Ok((Emit(st, [PushInt(digits)]), types + [Int]))
    case FloatLit(digits) => Ok((Emit(st, [PushFloat(digits)]), types + [Float]))
    case StrLit(raw) => Ok((PushString(st, raw), types + [Str]))
    case Ident(name) =>
      if name !in st.variables then Err(UndeclaredVariable(name))
      else
        var t := st.variables[name];
        Ok((Emit(st, [if t == Str then LoadAddress(name) else LoadValue(name)]), types + [t]))
    case Nested(inner) =>
      var r :- Translate(assets, st, inner);
      Ok((r.0, types + [r.1]))
    case Op(op) => BinaryStep(st, op, types)
    case Cast(text) => CastStep(assets, st, text, types)
  }

  /* ---------------- statements ---------------- */

  predicate Holds(cmp: Cmp, a: int, b: int)
  {
    match cmp
    case Gt => a > b
    case Lt => a < b
    case Ge => a >= b
    case Le => a <= b
    case Eq => a == b
    case Ne => a != b
  }

  /** Whether the jump is taken after `cmp rax, rbx` with `rax = a`, `rbx = b` (signed). */
  predicate Taken(j: Jump, a: int, b: int)
  {
    match j
    case Jle => a <= b
    case Jge => a >= b
    case Jl => a < b
    case Jg => a > b
    case Jne => a != b
    case Je => a == b
  }

  /** The jump over the then-block is taken exactly when the condition is false. */
  function SkipJump(cmp: Cmp): (j: Jump)
    ensures forall a: int, b: int :: Taken(j, a, b) <==> !Holds(cmp, a, b)
  {
    match cmp
    case Gt => Jle
    case Lt => Jge
    case Ge => Jl
    case Le => Jg
    case Eq => Jne
    case Ne => Je
  }

  /** Only integers can be compared; floats are unimplemented and strings only support equality, also unimplemented. */
  function ConditionJump(t: DataType, cmp: Cmp): (r: Result<Jump>)
    ensures r.Ok? <==> t == Int
    ensures r.Ok? ==> forall a: int, b: int :: Taken(r.value, a, b) <==> !Holds(cmp, a, b)
    ensures t == Str && cmp != Eq && cmp != Ne ==> r == Err(StringOrdering)
  {
    if t == Int then Ok(SkipJump(cmp))
    else if t == Float then Err(Unimplemented)
    else if cmp == Eq || cmp == Ne then Err(Unimplemented)
    else Err(StringOrdering)
  }

  function CompileDeclaration(assets: Assets, st: State, keyword: string, target: DeclTarget): Result<State>
  {
    match TypeOfKeyword(keyword)
    case None => Err(UnknownTypeKeyword(keyword))
    case Some(t) =>
      match target
      case Bare(name) => Ok(Declare(st, name, t))
      case WithValue(name, value) => CompileAssignment(assets, Declare(st, name, t), name, value)
      case WithInput(name) => CompileInput(assets, Declare(st, name, t), name)
  }

  function CompileAssignment(assets: Assets, st: State, name: string, value: Option<seq<Token>>): Result<State>
  {
    if name !in st.variables then Err(UndeclaredVariable(name))
    else
      var declared := st.variables[name];
      match value
      case None => Ok(st)
      case Some(expr) =>
        var r :- Translate(assets, st, expr);
        var st2 := r.0;
        if r.1 != declared then Err(AssignmentTypeMismatch(declared, r.1))
        else Ok(StoreValue(st2, name, declared))
  }

  /** The value on top of the stack goes into the variable: a number as a qword, a string copied byte by byte. */
  function StoreValue(st: State, name: string, t: DataType): State
  {
    if t == Str then
      st.(labelIndex := st.labelIndex + 2,
          text := st.text + [Labelled(StoreString(name), [st.labelIndex, st.labelIndex + 1])])
    else Emit(st, [StoreQword(name)])
  }

  /** An output first turns a number on the stack into text; a string is text already. */
  function ToText(assets: Assets, st: State, t: DataType): Result<State>
  {
    match t
    case Int => Merge(assets, st, IntToString)
    case Float => Merge(assets, st, FloatToString)
    case Str => Ok(st)
  }

  function CompileOutput(assets: Assets, st: State, expr: seq<Token>): Result<State>
  {
    var r :- Translate(assets, st, expr);
    var st3 :- ToText(assets, r.0, r.1);
    Ok(Print(st3))
  }

  /** The text at the top of the stack is written to standard output, taking two labels. */
  function Print(st: State): State
  {
    st.(labelIndex := st.labelIndex + 2,
        text := st.text + [Labelled(PrintString, [st.labelIndex, st.labelIndex + 1])])
  }

  /** Once the line is read, it is converted to the variable's type and stored. */
  function StoreLine(assets: Assets, st: State, name: string, t: DataType): Result<State>
  {
    match t
    case Int =>
      var st3 :- Merge(assets, st, StringToInt);
      Ok(Emit(st3, [StoreQword(name)]))
    case Float =>
      var st3 :- Merge(assets, st, StringToFloat);
      Ok(Emit(st3, [StoreQword(name)]))
    case Str =>
      Ok(st.(labelIndex := st.labelIndex + 2,
             text := st.text + [Labelled(StoreInput(name), [st.labelIndex, st.labelIndex + 1])]))
  }

  function CompileInput(assets: Assets, st: State, name: string): Result<State>
  {
    var st2 :- Merge(assets, st, ReadInput);
    if name !in st2.variables then Err(UndeclaredVariable(name))
    else StoreLine(assets, st2, name, st2.variables[name])
  }

  /** Both sides of a condition are evaluated onto the stack and the skip jump is chosen. */
  function CompileCondition(assets: Assets, st: State, left: seq<Token>, cmp: Cmp, right: seq<Token>): Result<(State, Jump)>
  {
    var l :- Translate(assets, st, left);
    var r :- Translate(assets, l.0, right);
    if l.1 != r.1 then Err(ComparisonTypesDiffer(l.1, r.1))
    else
      var jump :- ConditionJump(l.1, cmp);
      Ok((r.0, jump))
  }

  function CompileIf(assets: Assets, st: State, s: Stmt): Result<State>
    requires s.If?
    decreases s, 1
  {
    var c :- CompileCondition(assets, st, s.left, s.cmp, s.right);
    CompileBranches(assets, c.0, c.1, s)
  }

  /**
   * With both operands compared, the then-block comes behind a jump past it
   * to `label_skip`, and an else-block behind an unconditional jump from the
   * end of the then-block past the else-block.
   */
  function CompileBranches(assets: Assets, st: State, jump: Jump, s: Stmt): Result<State>
    requires s.If?
    decreases s, 0
  {
    var skip := st.labelIndex;
    var st4 :- CompileBlock(assets, ThenStart(st, jump), s.thenBlock);
    match s.elseBlock
    case NoElse => Ok(Emit(st4, [Label(skip)]))
    case Else(elseBlock) =>
      var st6 :- CompileBlock(assets, ElseStart(st4, skip), elseBlock);
      Ok(Emit(st6, [Label(st4.labelIndex)]))
  }

  /** Where the then-block starts: operands popped, compared, and the jump to a fresh `label_skip`. */
  function ThenStart(st: State, jump: Jump): State
  {
    st.(labelIndex := st.labelIndex + 1, text := st.text + [PopOperands, CompareAndSkip(jump, st.labelIndex)])
  }

  /** Where the else-block starts: the jump past it to a fresh `label_skip_else`, then `label_skip`. */
  function ElseStart(thenEnd: State, skip: nat): State
  {
    thenEnd.(labelIndex := thenEnd.labelIndex + 1, text := thenEnd.text + [JumpTo(thenEnd.labelIndex), Label(skip)])
  }

  function CompileStmt(assets: Assets, st: State, s: Stmt): Result<State>
    decreases s, 2
  {
    match s
    case Declaration(keyword, target) => CompileDeclaration(assets, st, keyword, target)
    case Assignment(name, value) => CompileAssignment(assets, st, name, value)
    case Output(expr) => CompileOutput(assets, st, expr)
    case Input(name) => CompileInput(assets, st, name)
    case If(_, _, _, _, _) => CompileIf(assets, st, s)
    case EndOfInput => Ok(st)
    case Unsupported => Err(UnexpectedStatement)
  }

  function CompileBlock(assets: Assets, st: State, ss: seq<Stmt>): Result<State>
    decreases ss
  {
    if ss == [] then Ok(st)
    else
      var st2 :- CompileStmt(assets, st, ss[0]);
      CompileBlock(assets, st2, ss[1..])
  }

  /** The statements of a program compiled from a fresh context, before the storage section. */
  function CompileProgram(assets: Assets, prog: seq<Stmt>): Result<State>
  {
    CompileBlock(assets, Initial, prog)
  }

  /* ---------------- the two inline conversions of the older compiler ---------------- */

  /** `int_to_string` inline: four fresh labels. */
  function InlineIntToString(st: State): State
  {
    var l := st.labelIndex;
    st.(labelIndex := l + 4, text := st.text + [Labelled(IntToStringInline, [l, l + 1, l + 2, l + 3])])
  }

  /** `string_to_int` inline: five fresh labels. */
  function InlineStringToInt(st: State): State
  {
    var l := st.labelIndex;
    st.(labelIndex := l + 5, text := st.text + [Labelled(StringToIntInline, [l, l + 1, l + 2, l + 3, l + 4])])
  }

  /* ---------------- the storage section ---------------- */

  function StorageFor(t: DataType): (s: Storage)
    ensures s == Qword <==> IsNumeric(t)
    ensures s.Bytes? ==> s.count == 1000
  {
    if t == Str then Bytes(1000) else Qword
  }

  /** One storage line per variable, sized by its type, in any order. */
  ghost predicate IsStorageSection(vars: map<string, DataType>, lines: seq<DataLine>)
  {
    && |lines| == |vars|
    && (forall k :: 0 <= k < |lines| ==>
          lines[k].VariableStorage? && lines[k].name in vars && lines[k].storage == StorageFor(vars[lines[k].name]))
    && (forall a, b :: 0 <= a < b < |lines| ==> lines[a].name != lines[b].name)
    && (forall x :: x in vars ==> exists k :: 0 <= k < |lines| && lines[k] == VariableStorage(x, StorageFor(vars[x])))
  }
}
