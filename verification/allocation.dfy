/**
 * Label and slot allocation. Every emitter takes its label numbers from
 * `label_index` and its data slots from `variable_index`, reading each counter
 * and then bumping it. Over a whole compilation, the numbers the emitted
 * pieces own are therefore exactly `0 .. label_index - 1`, each owned once,
 * and every jump lands on a label that is placed.
 */
module Allocation {
  import opened MedusaTypes
  import opened Syntax
  import opened ShuntingYard
  import opened TemplateMerger
  import opened Codegen

  /** The label numbers a piece of text was handed by the counter. */
  function OwnedBy(i: Instr): seq<nat>
  {
    if i.Labelled? then i.labels else []
  }

  function Owned(text: seq<Instr>): seq<nat>
    decreases |text|
  {
    if text == [] then [] else Owned(text[..|text| - 1]) + OwnedBy(text[|text| - 1])
  }

  /** The labels a piece jumps to. */
  function ReferencedBy(i: Instr): set<nat>
  {
    if i.CompareAndSkip? || i.JumpTo? then {i.target} else {}
  }

  /** Every jump in the text goes to a `label_N:` placed in the same text. */
  ghost predicate JumpsResolved(text: seq<Instr>)
  {
    forall i, n :: i in text && n in ReferencedBy(i) ==> Label(n) in text
  }

  /** The data slots (`string_N`) the data lines define. */
  function Slots(data: seq<DataLine>): seq<nat>
    decreases |data|
  {
    if data == [] then []
    else
      var last := data[|data| - 1];
      Slots(data[..|data| - 1]) + (if last.StringConstant? then [last.slot] else [])
  }

  /**
   * From `st` to `st2` the counters only grow, text and data are only
   * appended to, the appended text owns as many label numbers as the label
   * counter moved over and exactly those, and resolves its own jumps, and the
   * appended data defines the slots the slot counter moved over in the same
   * way.
   */
  ghost predicate Allocates(st: State, st2: State)
  {
    && st.labelIndex <= st2.labelIndex
    && st.variableIndex <= st2.variableIndex
    && st.text <= st2.text
    && st.data <= st2.data
    && Covers(Owned(st2.text[|st.text|..]), st.labelIndex, st2.labelIndex)
    && JumpsResolved(st2.text[|st.text|..])
    && Covers(Slots(st2.data[|st.data|..]), st.variableIndex, st2.variableIndex)
  }

  /** `s` lists as many numbers as `lo .. hi - 1` holds, and exactly those. */
  ghost predicate Covers(s: seq<nat>, lo: nat, hi: nat)
  {
    |s| + lo == hi && forall n :: n in s <==> lo <= n < hi
  }

  lemma CoversJoin(s: seq<nat>, t: seq<nat>, lo: nat, mid: nat, hi: nat)
    requires (Covers(s, lo, mid) && Covers(t, mid, hi)) || (Covers(t, lo, mid) && Covers(s, mid, hi))
    ensures Covers(s + t, lo, hi)
  {
  }

  /** What an expression may do: allocate, and leave the symbol table alone. */
  ghost predicate AllocatesOnly(st: State, st2: State)
  {
    Allocates(st, st2) && st2.variables == st.variables
  }

  /* ---------------- sequence facts ---------------- */

  /** A prefix followed by the rest is the whole. */
  lemma Rest<T>(p: seq<T>, q: seq<T>)
    requires p <= q
    ensures q == p + q[|p|..]
  {
  }

  /** What follows a prefix grows with what is appended. */
  lemma AppendAfter<T>(p: seq<T>, q: seq<T>, r: seq<T>)
    requires p <= q
    ensures p <= q + r && (q + r)[|p|..] == q[|p|..] + r
  {
  }

  lemma {:induction false} OwnedAppend(a: seq<Instr>, b: seq<Instr>)
    ensures Owned(a + b) == Owned(a) + Owned(b)
    decreases |b|
  {
    if b == [] {
      assert a + b == a;
    } else {
      var c := b[..|b| - 1];
      OwnedAppend(a, c);
      assert (a + b)[..|a + b| - 1] == a + c;
      assert (a + b)[|a + b| - 1] == b[|b| - 1];
    }
  }

  lemma {:induction false} SlotsAppend(a: seq<DataLine>, b: seq<DataLine>)
    ensures Slots(a + b) == Slots(a) + Slots(b)
    decreases |b|
  {
    if b == [] {
      assert a + b == a;
    } else {
      var c := b[..|b| - 1];
      SlotsAppend(a, c);
      assert (a + b)[..|a + b| - 1] == a + c;
      assert (a + b)[|a + b| - 1] == b[|b| - 1];
    }
  }

  lemma {:induction false} RangeMembers(lo: nat, hi: nat)
    ensures forall n :: n in Range(lo, hi) <==> lo <= n < hi
    decreases hi
  {
    if hi > lo {
      RangeMembers(lo, hi - 1);
    }
  }

  lemma RangeCovers(lo: nat, hi: nat)
    requires lo <= hi
    ensures Covers(Range(lo, hi), lo, hi)
  {
    RangeMembers(lo, hi);
  }

  /** A sequence of `n` numbers that holds each number below `n` repeats none. */
  lemma NoRepeats(s: seq<nat>, n: nat)
    requires |s| == n && forall x :: x in s <==> 0 <= x < n
    ensures forall a, b :: 0 <= a < b < |s| ==> s[a] != s[b]
  {
    BelowCardinality(n);
    assert Elements(s) == Below(n);
    forall a, b | 0 <= a < b < |s| ensures s[a] != s[b] {
      if s[a] == s[b] {
        RepeatShrinksSet(s, a, b);
      }
    }
  }

  function Elements(s: seq<nat>): set<nat>
  {
    set x | x in s
  }

  function Below(n: nat): set<nat>
  {
    if n == 0 then {} else Below(n - 1) + {n - 1}
  }

  lemma {:induction false} BelowCardinality(n: nat)
    ensures |Below(n)| == n && forall x :: x in Below(n) <==> 0 <= x < n
    decreases n
  {
    if n > 0 {
      BelowCardinality(n - 1);
    }
  }

  lemma {:induction false} SetNoLarger(s: seq<nat>)
    ensures |Elements(s)| <= |s|
    decreases |s|
  {
    if s != [] {
      var init := s[..|s| - 1];
      SetNoLarger(init);
      var last := s[|s| - 1];
      assert Elements(s) == Elements(init) + {last};
    }
  }

  lemma RepeatShrinksSet(s: seq<nat>, a: nat, b: nat)
    requires a < b < |s| && s[a] == s[b]
    ensures |Elements(s)| < |s|
  {
    var t := s[..b] + s[b + 1..];
    assert Elements(s) == Elements(t) by {
      forall x | x in s ensures x in t {
        var k :| 0 <= k < |s| && s[k] == x;
        if k < b { assert t[k] == x; } else if k > b { assert t[k - 1] == x; } else { assert t[a] == x; }
      }
    }
    SetNoLarger(t);
  }

  /* ---------------- building blocks ---------------- */

  lemma AllocatesRefl(st: State, st2: State)
    requires st2.labelIndex == st.labelIndex && st2.variableIndex == st.variableIndex
    requires st2.text == st.text && st2.data == st.data
    ensures Allocates(st, st2)
  {
    assert st2.text[|st.text|..] == [];
    assert st2.data[|st.data|..] == [];
  }

  lemma AllocatesTrans(a: State, b: State, c: State)
    requires Allocates(a, b) && Allocates(b, c)
    ensures Allocates(a, c)
  {
    var ab, bc := b.text[|a.text|..], c.text[|b.text|..];
    Rest(b.text, c.text);
    AppendAfter(a.text, b.text, bc);
    OwnedAppend(ab, bc);
    CoversJoin(Owned(ab), Owned(bc), a.labelIndex, b.labelIndex, c.labelIndex);
    var dab, dbc := b.data[|a.data|..], c.data[|b.data|..];
    Rest(b.data, c.data);
    AppendAfter(a.data, b.data, dbc);
    SlotsAppend(dab, dbc);
    CoversJoin(Slots(dab), Slots(dbc), a.variableIndex, b.variableIndex, c.variableIndex);
  }

  /** Appending one piece that owns the next `k` labels and jumps nowhere. */
  lemma Issue(st: State, i: Instr, k: nat)
    requires Covers(OwnedBy(i), st.labelIndex, st.labelIndex + k) && ReferencedBy(i) == {}
    ensures AllocatesOnly(st, st.(labelIndex := st.labelIndex + k, text := st.text + [i]))
  {
    var st2 := st.(labelIndex := st.labelIndex + k, text := st.text + [i]);
    assert st2.text[|st.text|..] == [i];
    assert Owned([i]) == Owned([]) + OwnedBy(i);
    assert st2.data[|st.data|..] == [];
  }

  /** Appending one piece that owns the `n` labels from the counter on, in order. */
  lemma IssueRange(st: State, i: Instr, n: nat)
    requires OwnedBy(i) == Range(st.labelIndex, st.labelIndex + n) && ReferencedBy(i) == {}
    ensures AllocatesOnly(st, st.(labelIndex := st.labelIndex + n, text := st.text + [i]))
  {
    RangeCovers(st.labelIndex, st.labelIndex + n);
    Issue(st, i, n);
  }

  lemma EmitOne(st: State, i: Instr)
    requires OwnedBy(i) == [] && ReferencedBy(i) == {}
    ensures AllocatesOnly(st, Emit(st, [i]))
  {
    Issue(st, i, 0);
  }

  lemma TwoLabels(st: State, i: Instr)
    requires OwnedBy(i) == [st.labelIndex, st.labelIndex + 1] && ReferencedBy(i) == {}
    ensures AllocatesOnly(st, st.(labelIndex := st.labelIndex + 2, text := st.text + [i]))
  {
    Issue(st, i, 2);
  }

  lemma PushStringAllocates(st: State, raw: string)
    ensures AllocatesOnly(st, PushString(st, raw))
  {
    var st2 := PushString(st, raw);
    var i := Labelled(StringCopy(st.variableIndex), [st.labelIndex, st.labelIndex + 1]);
    assert st2.text[|st.text|..] == [i];
    assert Owned([i]) == Owned([]) + OwnedBy(i);
    var line := StringConstant(st.variableIndex, raw);
    assert st2.data[|st.data|..] == [line];
    assert Slots([line]) == Slots([]) + [st.variableIndex];
  }

  /** A merged template owns exactly the labels its names were numbered with. */
  lemma MergedIssues(st: State, tmpl: Template, body: string)
    ensures AllocatesOnly(st, st.(labelIndex := st.labelIndex + LabelCount(body),
                                  text := st.text + [MergedPiece(tmpl, body, st.labelIndex)]))
  {
    IssueRange(st, MergedPiece(tmpl, body, st.labelIndex), LabelCount(body));
  }

  lemma MergeAllocates(assets: Assets, st: State, tmpl: Template)
    ensures var r := Merge(assets, st, tmpl); r.Ok? ==> AllocatesOnly(st, r.value)
  {
    if tmpl in assets {
      MergedIssues(st, tmpl, assets[tmpl]);
    }
  }

  lemma ConversionAllocates(assets: Assets, st: State, from: DataType, to: DataType)
    requires from != to
    ensures var r := Conversion(assets, st, from, to); r.Ok? ==> AllocatesOnly(st, r.value)
  {
    if from == Float && to == Int {
      EmitOne(st, FloatToInt);
    } else {
      MergeAllocates(assets, st, ConversionTemplate(from, to));
    }
  }

  lemma BinaryStepAllocates(st: State, op: BinOp, types: seq<DataType>)
    ensures var r := BinaryStep(st, op, types); r.Ok? ==> AllocatesOnly(st, r.value.0)
  {
    if BinaryStep(st, op, types).Ok? {
      var left := types[|types| - 2];
      EmitOne(st, if left == Int then IntArith(op) else FloatArith(op));
    }
  }

  lemma CastStepAllocates(assets: Assets, st: State, text: string, types: seq<DataType>)
    ensures var r := CastStep(assets, st, text, types); r.Ok? ==> AllocatesOnly(st, r.value.0)
  {
    if types != [] && CastTarget(text).Some? {
      var from, to := types[|types| - 1], CastTarget(text).value;
      if from == to {
        AllocatesRefl(st, st);
      } else {
        ConversionAllocates(assets, st, from, to);
      }
    }
  }

  /* ---------------- expressions ---------------- */

  lemma {:induction false} TranslateAllocates(assets: Assets, st: State, tokens: seq<Token>)
    ensures var r := Translate(assets, st, tokens); r.Ok? ==> AllocatesOnly(st, r.value.0)
    decreases tokens, 1
  {
    var post := Postfix(tokens);
    PostfixPermutes(tokens);
    assert forall t :: t in post ==> t in multiset(tokens);
    WalkAllocates(assets, st, post, [], tokens);
  }

  lemma {:induction false} WalkAllocates(assets: Assets, st: State, post: seq<Token>, types: seq<DataType>, origin: seq<Token>)
    requires forall t :: t in post ==> t in origin
    ensures var r := Walk(assets, st, post, types, origin); r.Ok? ==> AllocatesOnly(st, r.value.0)
    decreases origin, 0, |post|
  {
    if post == [] {
      AllocatesRefl(st, st);
    } else {
      StepAllocates(assets, st, post[0], types, origin);
      var r := Step(assets, st, post[0], types, origin);
      if r.Ok? {
        WalkAllocates(assets, r.value.0, post[1..], r.value.1, origin);
        var w := Walk(assets, r.value.0, post[1..], r.value.1, origin);
        if w.Ok? {
          AllocatesTrans(st, r.value.0, w.value.0);
        }
      }
    }
  }

  lemma {:induction false} StepAllocates(assets: Assets, st: State, tok: Token, types: seq<DataType>, origin: seq<Token>)
    requires tok in origin
    ensures var r := Step(assets, st, tok, types, origin); r.Ok? ==> AllocatesOnly(st, r.value.0)
    decreases origin, 0, 0
  {
    match tok
    case IntLit(digits) => EmitOne(st, PushInt(digits));
    case FloatLit(digits) => EmitOne(st, PushFloat(digits));
    case StrLit(raw) => PushStringAllocates(st, raw);
    case Ident(name) =>
      if name in st.variables {
        var t := st.variables[name];
        EmitOne(st, if t == Str then LoadAddress(name) else LoadValue(name));
      }
    case Nested(inner) => TranslateAllocates(assets, st, inner);
    case Op(op) => BinaryStepAllocates(st, op, types);
    case Cast(text) => CastStepAllocates(assets, st, text, types);
  }

  /* ---------------- statements ---------------- */

  lemma StoreValueAllocates(st: State, name: string, t: DataType)
    ensures AllocatesOnly(st, StoreValue(st, name, t))
  {
    if t == Str {
      TwoLabels(st, Labelled(StoreString(name), [st.labelIndex, st.labelIndex + 1]));
    } else {
      EmitOne(st, StoreQword(name));
    }
  }

  lemma AssignmentAllocates(assets: Assets, st: State, name: string, value: Option<seq<Token>>)
    ensures var r := CompileAssignment(assets, st, name, value); r.Ok? ==> Allocates(st, r.value)
  {
    if name in st.variables && value.Some? {
      TranslateAllocates(assets, st, value.value);
      var r := Translate(assets, st, value.value);
      if r.Ok? && r.value.1 == st.variables[name] {
        var st2 := r.value.0;
        StoreValueAllocates(st2, name, r.value.1);
        AllocatesTrans(st, st2, StoreValue(st2, name, r.value.1));
      }
    } else if name in st.variables {
      AllocatesRefl(st, st);
    }
  }

  lemma ToTextAllocates(assets: Assets, st: State, t: DataType)
    ensures var r := ToText(assets, st, t); r.Ok? ==> AllocatesOnly(st, r.value)
  {
    match t
    case Int => MergeAllocates(assets, st, IntToString);
    case Float => MergeAllocates(assets, st, FloatToString);
    case Str => AllocatesRefl(st, st);
  }

  lemma PrintAllocates(st0: State, st: State)
    requires Allocates(st0, st)
    ensures Allocates(st0, Print(st))
  {
    TwoLabels(st, Labelled(PrintString, [st.labelIndex, st.labelIndex + 1]));
    AllocatesTrans(st0, st, Print(st));
  }

  lemma OutputAllocates(assets: Assets, st: State, expr: seq<Token>)
    ensures var r := CompileOutput(assets, st, expr); r.Ok? ==> Allocates(st, r.value)
  {
    TranslateAllocates(assets, st, expr);
    var r := Translate(assets, st, expr);
    if r.Ok? {
      var st2 := r.value.0;
      ToTextAllocates(assets, st2, r.value.1);
      var conv := ToText(assets, st2, r.value.1);
      if conv.Ok? {
        AllocatesTrans(st, st2, conv.value);
        PrintAllocates(st, conv.value);
        assert CompileOutput(assets, st, expr) == Ok(Print(conv.value));
      }
    }
  }

  lemma StoreLineAllocates(assets: Assets, st: State, name: string, t: DataType)
    ensures var r := StoreLine(assets, st, name, t); r.Ok? ==> Allocates(st, r.value)
  {
    match t
    case Int =>
      MergeAllocates(assets, st, StringToInt);
      var m := Merge(assets, st, StringToInt);
      if m.Ok? {
        EmitOne(m.value, StoreQword(name));
        AllocatesTrans(st, m.value, Emit(m.value, [StoreQword(name)]));
      }
    case Float =>
      MergeAllocates(assets, st, StringToFloat);
      var m := Merge(assets, st, StringToFloat);
      if m.Ok? {
        EmitOne(m.value, StoreQword(name));
        AllocatesTrans(st, m.value, Emit(m.value, [StoreQword(name)]));
      }
    case Str =>
      TwoLabels(st, Labelled(StoreInput(name), [st.labelIndex, st.labelIndex + 1]));
  }

  lemma InputAllocates(assets: Assets, st: State, name: string)
    ensures var r := CompileInput(assets, st, name); r.Ok? ==> Allocates(st, r.value)
  {
    MergeAllocates(assets, st, ReadInput);
    var m := Merge(assets, st, ReadInput);
    if m.Ok? && name in m.value.variables {
      StoreLineAllocates(assets, m.value, name, m.value.variables[name]);
      var r := StoreLine(assets, m.value, name, m.value.variables[name]);
      if r.Ok? {
        AllocatesTrans(st, m.value, r.value);
      }
    }
  }

  lemma DeclarationAllocates(assets: Assets, st: State, keyword: string, target: DeclTarget)
    ensures var r := CompileDeclaration(assets, st, keyword, target); r.Ok? ==> Allocates(st, r.value)
  {
    if TypeOfKeyword(keyword).Some? {
      var st1 := Declare(st, target.name, TypeOfKeyword(keyword).value);
      AllocatesRefl(st, st1);
      match target
      case Bare(_) =>
      case WithValue(name, value) =>
        AssignmentAllocates(assets, st1, name, value);
        var r := CompileAssignment(assets, st1, name, value);
        if r.Ok? { AllocatesTrans(st, st1, r.value); }
      case WithInput(name) =>
        InputAllocates(assets, st1, name);
        var r := CompileInput(assets, st1, name);
        if r.Ok? { AllocatesTrans(st, st1, r.value); }
    }
  }

  /** A piece without labelled instructions owns nothing. */
  lemma {:induction false} OwnsNothing(pre: seq<Instr>)
    requires forall i :: i in pre ==> !i.Labelled?
    ensures Owned(pre) == []
    decreases |pre|
  {
    if pre != [] {
      OwnsNothing(pre[..|pre| - 1]);
    }
  }

  lemma OwnsOne(k: nat)
    ensures Owned([Label(k)]) == [k]
  {
    assert Owned([Label(k)]) == Owned([]) + OwnedBy(Label(k));
  }

  /** The text of an `if` without `else`: operand pops, the skip, the then-block, the skip label. */
  function IfText(a: seq<Instr>, b: seq<Instr>, jump: Jump, skip: nat): seq<Instr>
  {
    a + [PopOperands, CompareAndSkip(jump, skip)] + b + [Label(skip)]
  }

  /**
   * The text of an `if` with `else`: operand pops, the skip, the then-block,
   * the jump over the else-block, the skip label, the else-block, its label.
   */
  function IfElseText(a: seq<Instr>, b: seq<Instr>, c: seq<Instr>, jump: Jump, skip: nat, skipElse: nat): seq<Instr>
  {
    a + [PopOperands, CompareAndSkip(jump, skip)] + b + [JumpTo(skipElse), Label(skip)] + c + [Label(skipElse)]
  }

  /** Appending instructions that own nothing. */
  lemma OwnedAppendSilent(a: seq<Instr>, pre: seq<Instr>)
    requires forall i :: i in pre ==> !i.Labelled?
    ensures Owned(a + pre) == Owned(a)
  {
    OwnsNothing(pre);
    OwnedAppend(a, pre);
  }

  /** Appending a block and then a label. */
  lemma OwnedAppendLabel(a: seq<Instr>, b: seq<Instr>, k: nat)
    ensures Owned(a + b + [Label(k)]) == Owned(a) + Owned(b) + [k]
  {
    OwnsOne(k);
    OwnedAppend(a + b, [Label(k)]);
    OwnedAppend(a, b);
  }

  lemma IfTextOwned(a: seq<Instr>, b: seq<Instr>, jump: Jump, skip: nat)
    ensures Owned(IfText(a, b, jump, skip)) == Owned(a) + Owned(b) + [skip]
  {
    var ap := a + [PopOperands, CompareAndSkip(jump, skip)];
    OwnedAppendSilent(a, [PopOperands, CompareAndSkip(jump, skip)]);
    OwnedAppendLabel(ap, b, skip);
  }

  lemma IfTextOwns(a: seq<Instr>, b: seq<Instr>, jump: Jump, lo: nat, skip: nat, hi: nat)
    requires Covers(Owned(a), lo, skip) && Covers(Owned(b), skip + 1, hi)
    ensures Covers(Owned(IfText(a, b, jump, skip)), lo, hi)
  {
    IfTextOwned(a, b, jump, skip);
    CoversAround(Owned(a), Owned(b), lo, skip, hi);
  }

  /** Numbers `lo .. skip - 1`, then `skip + 1 .. hi - 1`, then `skip`. */
  lemma CoversAround(x: seq<nat>, y: seq<nat>, lo: nat, skip: nat, hi: nat)
    requires Covers(x, lo, skip) && Covers(y, skip + 1, hi)
    ensures Covers(x + y + [skip], lo, hi)
  {
  }

  lemma IfElseTextOwned(a: seq<Instr>, b: seq<Instr>, c: seq<Instr>, jump: Jump, skip: nat, skipElse: nat)
    ensures Owned(IfElseText(a, b, c, jump, skip, skipElse)) == Owned(a) + Owned(b) + [skip] + (Owned(c) + [skipElse])
  {
    var ap := a + [PopOperands, CompareAndSkip(jump, skip)];
    OwnedAppendSilent(a, [PopOperands, CompareAndSkip(jump, skip)]);
    var x := ap + b;
    OwnedAppend(ap, b);
    var y := x + [JumpTo(skipElse), Label(skip)];
    OwnedJumpLabel(x, skipElse, skip);
    OwnedAppendLabel(y, c, skipElse);
  }

  lemma OwnedJumpLabel(x: seq<Instr>, target: nat, k: nat)
    ensures Owned(x + [JumpTo(target), Label(k)]) == Owned(x) + [k]
  {
    var y := x + [JumpTo(target), Label(k)];
    assert y[..|y| - 1] == x + [JumpTo(target)];
    OwnedAppendSilent(x, [JumpTo(target)]);
  }

  lemma IfElseTextOwns(a: seq<Instr>, b: seq<Instr>, c: seq<Instr>, jump: Jump, lo: nat, skip: nat, skipElse: nat, hi: nat)
    requires Covers(Owned(a), lo, skip) && Covers(Owned(b), skip + 1, skipElse) && Covers(Owned(c), skipElse + 1, hi)
    ensures Covers(Owned(IfElseText(a, b, c, jump, skip, skipElse)), lo, hi)
  {
    IfElseTextOwned(a, b, c, jump, skip, skipElse);
    CoversAround(Owned(a), Owned(b), lo, skip, skipElse);
    CoversAround(Owned(a) + Owned(b) + [skip], Owned(c), lo, skipElse, hi);
  }

  lemma IfTextJumps(a: seq<Instr>, b: seq<Instr>, jump: Jump, skip: nat)
    requires JumpsResolved(a) && JumpsResolved(b)
    ensures JumpsResolved(IfText(a, b, jump, skip))
  {
    var t := IfText(a, b, jump, skip);
    assert t[|t| - 1] == Label(skip);
    forall i, n | i in t && n in ReferencedBy(i) ensures Label(n) in t {
      if i in a {
        assert Label(n) in a;
      } else if i in b {
        assert Label(n) in b;
      }
    }
  }

  lemma IfElseTextJumps(a: seq<Instr>, b: seq<Instr>, c: seq<Instr>, jump: Jump, skip: nat, skipElse: nat)
    requires JumpsResolved(a) && JumpsResolved(b) && JumpsResolved(c)
    ensures JumpsResolved(IfElseText(a, b, c, jump, skip, skipElse))
  {
    var t := IfElseText(a, b, c, jump, skip, skipElse);
    var k := |a| + 2 + |b| + 1;
    assert t[k] == Label(skip);
    assert t[|t| - 1] == Label(skipElse);
    forall i, n | i in t && n in ReferencedBy(i) ensures Label(n) in t {
      if i in a {
        assert Label(n) in a;
      } else if i in b {
        assert Label(n) in b;
      } else if i in c {
        assert Label(n) in c;
      }
    }
  }

  lemma IfWithoutElseAllocates(s0: State, s2: State, s3: State, s4: State, jump: Jump)
    requires Allocates(s0, s2)
    requires s3 == ThenStart(s2, jump)
    requires Allocates(s3, s4)
    ensures Allocates(s0, Emit(s4, [Label(s2.labelIndex)]))
  {
    var skip := s2.labelIndex;
    var s5 := Emit(s4, [Label(skip)]);
    var a, b := s2.text[|s0.text|..], s4.text[|s3.text|..];
    AppendAfter(s0.text, s2.text, [PopOperands, CompareAndSkip(jump, skip)]);
    Rest(s3.text, s4.text);
    AppendAfter(s0.text, s3.text, b);
    AppendAfter(s0.text, s4.text, [Label(skip)]);
    assert s5.text[|s0.text|..] == IfText(a, b, jump, skip);
    IfTextOwns(a, b, jump, s0.labelIndex, skip, s4.labelIndex);
    IfTextJumps(a, b, jump, skip);
    var da, db := s2.data[|s0.data|..], s4.data[|s3.data|..];
    Rest(s3.data, s4.data);
    AppendAfter(s0.data, s2.data, db);
    SlotsAppend(da, db);
    CoversJoin(Slots(da), Slots(db), s0.variableIndex, s2.variableIndex, s4.variableIndex);
  }

  lemma IfWithElseAllocates(s0: State, s2: State, s3: State, s4: State, s5: State, s6: State, jump: Jump)
    requires Allocates(s0, s2)
    requires s3 == ThenStart(s2, jump)
    requires Allocates(s3, s4)
    requires s5 == ElseStart(s4, s2.labelIndex)
    requires Allocates(s5, s6)
    ensures Allocates(s0, Emit(s6, [Label(s4.labelIndex)]))
  {
    var skip, skipElse := s2.labelIndex, s4.labelIndex;
    var s7 := Emit(s6, [Label(skipElse)]);
    var a, b, c := s2.text[|s0.text|..], s4.text[|s3.text|..], s6.text[|s5.text|..];
    AppendAfter(s0.text, s2.text, [PopOperands, CompareAndSkip(jump, skip)]);
    Rest(s3.text, s4.text);
    AppendAfter(s0.text, s3.text, b);
    AppendAfter(s0.text, s4.text, [JumpTo(skipElse), Label(skip)]);
    Rest(s5.text, s6.text);
    AppendAfter(s0.text, s5.text, c);
    AppendAfter(s0.text, s6.text, [Label(skipElse)]);
    assert s7.text[|s0.text|..] == IfElseText(a, b, c, jump, skip, skipElse);
    IfElseTextOwns(a, b, c, jump, s0.labelIndex, skip, skipElse, s6.labelIndex);
    IfElseTextJumps(a, b, c, jump, skip, skipElse);
    var da, db, dc := s2.data[|s0.data|..], s4.data[|s3.data|..], s6.data[|s5.data|..];
    Rest(s3.data, s4.data);
    AppendAfter(s0.data, s2.data, db);
    Rest(s5.data, s6.data);
    AppendAfter(s0.data, s4.data, dc);
    SlotsAppend(da + db, dc);
    SlotsAppend(da, db);
    CoversJoin(Slots(da), Slots(db), s0.variableIndex, s2.variableIndex, s4.variableIndex);
    CoversJoin(Slots(da + db), Slots(dc), s0.variableIndex, s4.variableIndex, s6.variableIndex);
  }

  lemma ConditionAllocates(assets: Assets, st: State, left: seq<Token>, cmp: Cmp, right: seq<Token>)
    ensures var r := CompileCondition(assets, st, left, cmp, right); r.Ok? ==> AllocatesOnly(st, r.value.0)
  {
    TranslateAllocates(assets, st, left);
    var l := Translate(assets, st, left);
    if l.Ok? {
      TranslateAllocates(assets, l.value.0, right);
      var r := Translate(assets, l.value.0, right);
      if r.Ok? {
        AllocatesTrans(st, l.value.0, r.value.0);
      }
    }
  }

  /** The text an `if` without `else` leaves behind its condition, once its block compiled. */
  lemma IfThenShape(assets: Assets, s2: State, s: Stmt, jump: Jump, s4: State)
    requires s.If? && s.elseBlock.NoElse?
    requires CompileBlock(assets, ThenStart(s2, jump), s.thenBlock) == Ok(s4)
    ensures CompileBranches(assets, s2, jump, s) == Ok(Emit(s4, [Label(s2.labelIndex)]))
  {
  }

  /** The text an `if` with `else` leaves behind its condition, once both blocks compiled. */
  lemma IfElseShape(assets: Assets, s2: State, s: Stmt, jump: Jump, s4: State, s6: State)
    requires s.If? && s.elseBlock.Else?
    requires CompileBlock(assets, ThenStart(s2, jump), s.thenBlock) == Ok(s4)
    requires CompileBlock(assets, ElseStart(s4, s2.labelIndex), s.elseBlock.stmts) == Ok(s6)
    ensures CompileBranches(assets, s2, jump, s) == Ok(Emit(s6, [Label(s4.labelIndex)]))
  {
  }

  lemma {:induction false} IfAllocates(assets: Assets, st: State, s: Stmt)
    requires s.If?
    ensures var r := CompileIf(assets, st, s); r.Ok? ==> Allocates(st, r.value)
    decreases s, 1
  {
    var c := CompileCondition(assets, st, s.left, s.cmp, s.right);
    if c.Ok? {
      ConditionAllocates(assets, st, s.left, s.cmp, s.right);
      BranchesAllocates(assets, c.value.0, c.value.1, s);
      var r := CompileBranches(assets, c.value.0, c.value.1, s);
      if r.Ok? {
        AllocatesTrans(st, c.value.0, r.value);
      }
    }
  }

  lemma {:induction false} BranchesAllocates(assets: Assets, s2: State, jump: Jump, s: Stmt)
    requires s.If?
    ensures var r := CompileBranches(assets, s2, jump, s); r.Ok? ==> Allocates(s2, r.value)
    decreases s, 0, 1
  {
    var s3 := ThenStart(s2, jump);
    var b := CompileBlock(assets, s3, s.thenBlock);
    if b.Ok? {
      BlockAllocates(assets, s3, s.thenBlock);
      AllocatesRefl(s2, s2);
      if s.elseBlock.NoElse? {
        IfWithoutElseAllocates(s2, s2, s3, b.value, jump);
        IfThenShape(assets, s2, s, jump, b.value);
      } else {
        ElseAllocates(assets, s2, s, jump, b.value);
      }
    }
  }

  lemma {:induction false} ElseAllocates(assets: Assets, s2: State, s: Stmt, jump: Jump, s4: State)
    requires s.If? && s.elseBlock.Else? && Allocates(s2, s2)
    requires var s3 := ThenStart(s2, jump);
      CompileBlock(assets, s3, s.thenBlock) == Ok(s4) && Allocates(s3, s4)
    ensures var r := CompileBranches(assets, s2, jump, s); r.Ok? ==> Allocates(s2, r.value)
    decreases s, 0, 0
  {
    var s3 := ThenStart(s2, jump);
    var s5 := ElseStart(s4, s2.labelIndex);
    var e := CompileBlock(assets, s5, s.elseBlock.stmts);
    if e.Ok? {
      BlockAllocates(assets, s5, s.elseBlock.stmts);
      IfWithElseAllocates(s2, s2, s3, s4, s5, e.value, jump);
      IfElseShape(assets, s2, s, jump, s4, e.value);
    }
  }

  lemma {:induction false} StmtAllocates(assets: Assets, st: State, s: Stmt)
    ensures var r := CompileStmt(assets, st, s); r.Ok? ==> Allocates(st, r.value)
    decreases s, 2
  {
    match s
    case Declaration(keyword, target) => DeclarationAllocates(assets, st, keyword, target);
    case Assignment(name, value) => AssignmentAllocates(assets, st, name, value);
    case Output(expr) => OutputAllocates(assets, st, expr);
    case Input(name) => InputAllocates(assets, st, name);
    case If(_, _, _, _, _) => IfAllocates(assets, st, s);
    case EndOfInput => AllocatesRefl(st, st);
    case Unsupported =>
  }

  lemma {:induction false} BlockAllocates(assets: Assets, st: State, ss: seq<Stmt>)
    ensures var r := CompileBlock(assets, st, ss); r.Ok? ==> Allocates(st, r.value)
    decreases ss
  {
    if ss == [] {
      AllocatesRefl(st, st);
    } else {
      StmtAllocates(assets, st, ss[0]);
      var r := CompileStmt(assets, st, ss[0]);
      if r.Ok? {
        BlockAllocates(assets, r.value, ss[1..]);
        var b := CompileBlock(assets, r.value, ss[1..]);
        if b.Ok? {
          AllocatesTrans(st, r.value, b.value);
        }
      }
    }
  }

  /**
   * A compiled program owns every label number below the final counter
   * exactly once and no other, every jump lands on a placed label, and every
   * string slot below the final slot counter is defined exactly once.
   */
  lemma LabelsIssuedOnce(assets: Assets, prog: seq<Stmt>)
    ensures var r := CompileProgram(assets, prog);
      r.Ok? ==>
        var owned, slots := Owned(r.value.text), Slots(r.value.data);
        && (forall n :: n in owned <==> 0 <= n < r.value.labelIndex)
        && (forall a, b :: 0 <= a < b < |owned| ==> owned[a] != owned[b])
        && JumpsResolved(r.value.text)
        && (forall n :: n in slots <==> 0 <= n < r.value.variableIndex)
        && (forall a, b :: 0 <= a < b < |slots| ==> slots[a] != slots[b])
  {
    BlockAllocates(assets, Initial, prog);
    var r := CompileProgram(assets, prog);
    if r.Ok? {
      var fin := r.value;
      assert fin.text[|Initial.text|..] == fin.text;
      assert fin.data[|Initial.data|..] == fin.data;
      NoRepeats(Owned(fin.text), fin.labelIndex);
      NoRepeats(Slots(fin.data), fin.variableIndex);
    }
  }

  /** The inline `int_to_string` of the older compiler takes four fresh labels. */
  lemma InlineIntToStringAllocates(st: State)
    ensures AllocatesOnly(st, InlineIntToString(st))
    ensures InlineIntToString(st).labelIndex == st.labelIndex + 4
  {
    var l := st.labelIndex;
    Issue(st, Labelled(IntToStringInline, [l, l + 1, l + 2, l + 3]), 4);
  }

  /** The inline `string_to_int` of the older compiler takes five fresh labels. */
  lemma InlineStringToIntAllocates(st: State)
    ensures AllocatesOnly(st, InlineStringToInt(st))
    ensures InlineStringToInt(st).labelIndex == st.labelIndex + 5
  {
    var l := st.labelIndex;
    Issue(st, Labelled(StringToIntInline, [l, l + 1, l + 2, l + 3, l + 4]), 5);
  }
}
