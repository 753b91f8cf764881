/**
 * The conversion template merger (`print_assembly_with_context`): find the
 * label placeholders of a template with the pattern `[^{]{name}[^}]`, number
 * each distinct name from the label counter in first-seen order, and replace
 * every match by its first character, the number and its last character.
 *
 * The pattern's matches are modelled as the regular-expression engine finds
 * them: leftmost first, never overlapping, each consuming the characters on
 * either side of the braces.
 */
module TemplateMerger {
  import opened MedusaTypes

  predicate IsBrace(c: char) { c == '{' || c == '}' }

  /**
   * `t[i..j]` matches `[^{]{name}[^}]`: a character other than `{`, an
   * opening brace, a non-empty name free of braces, a closing brace and a
   * character other than `}`.
   */
  predicate IsMatch(t: string, i: nat, j: nat)
  {
    i + 5 <= j <= |t| && t[i] != '{' && t[i + 1] == '{' && t[j - 2] == '}' && t[j - 1] != '}' &&
    forall k :: i + 2 <= k < j - 2 ==> !IsBrace(t[k])
  }

  /** The first brace at or after `j`, or the end of the text. */
  function NextBrace(t: string, j: nat): (k: nat)
    requires j <= |t|
    ensures j <= k <= |t|
    ensures forall m :: j <= m < k ==> !IsBrace(t[m])
    ensures k < |t| ==> IsBrace(t[k])
    decreases |t| - j
  {
    if j == |t| || IsBrace(t[j]) then j else NextBrace(t, j + 1)
  }

  /** The end of the match starting at `i`, if one does: a match start fixes its end. */
  function MatchAt(t: string, i: nat): (r: Option<nat>)
    requires i <= |t|
    ensures forall j: nat :: IsMatch(t, i, j) <==> r == Some(j)
  {
    if i + 2 < |t| && t[i] != '{' && t[i + 1] == '{' then
      var k := NextBrace(t, i + 2);
      if k > i + 2 && k + 1 < |t| && t[k] == '}' && t[k + 1] != '}' then Some(k + 2) else None
    else None
  }

  /** One match: where it starts and ends in the template, and the label name between the braces. */
  datatype Placeholder = Placeholder(start: nat, end: nat, name: string)

  predicate Found(t: string, p: Placeholder)
  {
    IsMatch(t, p.start, p.end) && p.name == t[p.start + 2..p.end - 2]
  }

  /** The matches from `pos` on, as `captures_iter` yields them: leftmost first, resuming after each match. */
  function Scan(t: string, pos: nat): seq<Placeholder>
    requires pos <= |t|
    decreases |t| - pos
  {
    if pos == |t| then []
    else match MatchAt(t, pos)
      case Some(end) => [Placeholder(pos, end, t[pos + 2..end - 2])] + Scan(t, end)
      case None => Scan(t, pos + 1)
  }

  /** No match starts at a position in `[lo, hi)`. */
  ghost predicate NoMatchIn(t: string, lo: nat, hi: nat)
  {
    forall i: nat, j: nat :: lo <= i < hi ==> !IsMatch(t, i, j)
  }

  /**
   * `ps` is what a leftmost-first, non-overlapping search from `pos` finds:
   * each match starts at the first position at or after the end of the one
   * before where the pattern matches, and after the last there is none.
   */
  ghost predicate LeftmostFirst(t: string, pos: nat, ps: seq<Placeholder>)
    decreases |ps|
  {
    if ps == [] then NoMatchIn(t, pos, |t| + 1)
    else
      pos <= ps[0].start && Found(t, ps[0]) && NoMatchIn(t, pos, ps[0].start) &&
      LeftmostFirst(t, ps[0].end, ps[1..])
  }

  /** A search may start one step earlier over a position where nothing matches. */
  lemma LeftmostFirstBefore(t: string, pos: nat, ps: seq<Placeholder>)
    requires pos < |t| && MatchAt(t, pos) == None && LeftmostFirst(t, pos + 1, ps)
    ensures LeftmostFirst(t, pos, ps)
  {
    assert forall j: nat :: !IsMatch(t, pos, j);
  }

  lemma {:induction false} ScanIsLeftmostFirst(t: string, pos: nat)
    requires pos <= |t|
    ensures LeftmostFirst(t, pos, Scan(t, pos))
    decreases |t| - pos
  {
    if pos < |t| {
      match MatchAt(t, pos)
      case Some(end) =>
        ScanIsLeftmostFirst(t, end);
        assert Scan(t, pos)[1..] == Scan(t, end);
      case None =>
        ScanIsLeftmostFirst(t, pos + 1);
        LeftmostFirstBefore(t, pos, Scan(t, pos + 1));
    }
  }

  /** The matches from a position where one starts: that one, then the matches from its end. */
  lemma ScanAtMatch(t: string, pos: nat, end: nat)
    requires pos < |t| && MatchAt(t, pos) == Some(end)
    ensures Scan(t, pos) == [Placeholder(pos, end, t[pos + 2..end - 2])] + Scan(t, end)
  {
  }

  /** The matches from a position where none starts are those from the next position. */
  lemma ScanPastNoMatch(t: string, pos: nat)
    requires pos < |t| && MatchAt(t, pos) == None
    ensures Scan(t, pos) == Scan(t, pos + 1)
  {
  }

  /** A leftmost-first search from a position where a match starts finds that match first. */
  lemma LeftmostFirstAtMatch(t: string, pos: nat, end: nat, ps: seq<Placeholder>)
    requires pos <= |t| && MatchAt(t, pos) == Some(end) && LeftmostFirst(t, pos, ps)
    ensures ps != [] && ps[0] == Placeholder(pos, end, t[pos + 2..end - 2]) && LeftmostFirst(t, end, ps[1..])
  {
    assert IsMatch(t, pos, end);
    assert ps != [] && ps[0].start == pos;
  }

  /** A leftmost-first search from a position where nothing matches is one from the next position. */
  lemma LeftmostFirstPastNoMatch(t: string, pos: nat, ps: seq<Placeholder>)
    requires pos < |t| && MatchAt(t, pos) == None && LeftmostFirst(t, pos, ps)
    ensures LeftmostFirst(t, pos + 1, ps)
  {
    if ps != [] {
      assert ps[0].start != pos;
    }
  }

  /** And the leftmost-first matches are unique: `Scan` is the only list that fits. */
  lemma {:induction false} LeftmostFirstIsScan(t: string, pos: nat, ps: seq<Placeholder>)
    requires pos <= |t| && LeftmostFirst(t, pos, ps)
    ensures ps == Scan(t, pos)
    decreases |t| - pos
  {
    if pos == |t| {
      assert ps == [];
    } else {
      match MatchAt(t, pos)
      case Some(end) =>
        LeftmostFirstAtMatch(t, pos, end, ps);
        LeftmostFirstIsScan(t, end, ps[1..]);
        ScanAtMatch(t, pos, end);
        assert ps == [ps[0]] + ps[1..];
      case None =>
        LeftmostFirstPastNoMatch(t, pos, ps);
        LeftmostFirstIsScan(t, pos + 1, ps);
        ScanPastNoMatch(t, pos);
    }
  }

  function Names(ps: seq<Placeholder>): (names: seq<string>)
    ensures |names| == |ps|
    ensures forall k :: 0 <= k < |ps| ==> names[k] == ps[k].name
  {
    if ps == [] then [] else Names(ps[..|ps| - 1]) + [ps[|ps| - 1].name]
  }

  predicate Distinct(s: seq<string>) { forall a, b :: 0 <= a < b < |s| ==> s[a] != s[b] }

  /** The distinct names in the order they are first seen. */
  function Dedup(names: seq<string>): (r: seq<string>)
    ensures Distinct(r)
    ensures forall x :: x in r <==> x in names
  {
    if names == [] then []
    else
      var d := Dedup(names[..|names| - 1]);
      var last := names[|names| - 1];
      assert names == names[..|names| - 1] + [last];
      if last in d then d else d + [last]
  }

  /** A name comes before another in the order exactly when it is first seen before it. */
  lemma {:induction false} DedupIsFirstSeenOrder(names: seq<string>, a: nat, b: nat)
    requires a < b < |Dedup(names)|
    ensures FirstIndex(names, Dedup(names)[a]) < FirstIndex(names, Dedup(names)[b])
    decreases |names|
  {
    var d := Dedup(names[..|names| - 1]);
    var last := names[|names| - 1];
    var prefix := names[..|names| - 1];
    assert names == prefix + [last];
    FirstIndexOfPrefix(prefix, last, Dedup(names)[a]);
    if last in d {
      DedupIsFirstSeenOrder(prefix, a, b);
      FirstIndexOfPrefix(prefix, last, Dedup(names)[b]);
    } else if b < |d| {
      DedupIsFirstSeenOrder(prefix, a, b);
      FirstIndexOfPrefix(prefix, last, Dedup(names)[b]);
    } else {
      assert Dedup(names)[b] == last;
      assert last !in prefix;
      FirstIndexBound(prefix, Dedup(names)[a]);
    }
  }

  /** The position where `x` first occurs in `s`. */
  function FirstIndex(s: seq<string>, x: string): (k: nat)
    requires x in s
    ensures k < |s| && s[k] == x && forall m :: 0 <= m < k ==> s[m] != x
  {
    if s[0] == x then 0 else 1 + FirstIndex(s[1..], x)
  }

  lemma FirstIndexOfPrefix(prefix: seq<string>, last: string, x: string)
    requires x in prefix
    ensures FirstIndex(prefix + [last], x) == FirstIndex(prefix, x)
  {
    var k := FirstIndex(prefix, x);
    var j := FirstIndex(prefix + [last], x);
    assert (prefix + [last])[k] == x;
    assert prefix[j] == x || j == |prefix|;
  }

  lemma FirstIndexBound(prefix: seq<string>, x: string)
    requires x in prefix
    ensures FirstIndex(prefix, x) < |prefix|
  {
  }

  /** Each name in `order` numbered from `first` by its position. */
  function Numbering(order: seq<string>, first: nat): (m: map<string, nat>)
    ensures m.Keys == set x | x in order
    ensures Distinct(order) ==> forall k :: 0 <= k < |order| ==> m[order[k]] == first + k
  {
    if order == [] then map[]
    else
      var prefix := order[..|order| - 1];
      assert order == prefix + [order[|order| - 1]];
      Numbering(prefix, first)[order[|order| - 1] := first + |order| - 1]
  }

  /** The distinct label names of a template in first-seen order. */
  function LabelOrder(t: string): (order: seq<string>)
    ensures Distinct(order)
  {
    Dedup(Names(Scan(t, 0)))
  }

  /** The label order holds each placeholder name and nothing else. */
  lemma LabelOrderNames(t: string)
    ensures forall p :: p in Scan(t, 0) ==> p.name in LabelOrder(t)
    ensures forall x :: x in LabelOrder(t) ==> exists p :: p in Scan(t, 0) && p.name == x
  {
    var ps := Scan(t, 0);
    assert forall x :: x in LabelOrder(t) ==> exists k :: 0 <= k < |ps| && ps[k].name == x;
  }

  /** What a match is replaced by: its first character, the label number and its last character. */
  function Replacement(raw: string, number: nat): (r: string)
    requires |raw| >= 2
    ensures |r| >= 3 && r[0] == raw[0] && r[|r| - 1] == raw[|raw| - 1]
    ensures r[1..|r| - 1] == NatText(number)
  {
    [raw[0]] + NatText(number) + [raw[|raw| - 1]]
  }

  /** Every match in `ps` has a number. */
  predicate NamesIn(ps: seq<Placeholder>, numbers: map<string, nat>)
  {
    forall p :: p in ps ==> p.name in numbers
  }

  predicate Numbered(t: string, pos: nat, numbers: map<string, nat>)
    requires pos <= |t|
  {
    NamesIn(Scan(t, pos), numbers)
  }

  /** `replace_all` driven position by position: copy the text, replacing each match found. */
  function Rewrite(t: string, pos: nat, numbers: map<string, nat>): string
    requires pos <= |t| && Numbered(t, pos, numbers)
    decreases |t| - pos
  {
    if pos == |t| then []
    else match MatchAt(t, pos)
      case Some(end) =>
        assert Scan(t, pos)[0].name == t[pos + 2..end - 2];
        Replacement(t[pos..end], numbers[t[pos + 2..end - 2]]) + Rewrite(t, end, numbers)
      case None => [t[pos]] + Rewrite(t, pos + 1, numbers)
  }

  /** Matches in text order, none overlapping the one before, each at least five characters. */
  predicate InOrder(t: string, pos: nat, ps: seq<Placeholder>)
    decreases |ps|
  {
    ps == [] || (pos <= ps[0].start && ps[0].start + 2 <= ps[0].end <= |t| && InOrder(t, ps[0].end, ps[1..]))
  }

  lemma {:induction false} LeftmostFirstIsInOrder(t: string, pos: nat, ps: seq<Placeholder>)
    requires LeftmostFirst(t, pos, ps)
    ensures InOrder(t, pos, ps)
    decreases |ps|
  {
    if ps != [] {
      LeftmostFirstIsInOrder(t, ps[0].end, ps[1..]);
    }
  }

  /** The reference meaning of replacing a list of matches: splice each replacement between the untouched gaps. */
  function Splice(t: string, pos: nat, ps: seq<Placeholder>, numbers: map<string, nat>): string
    requires pos <= |t| && InOrder(t, pos, ps)
    requires NamesIn(ps, numbers)
    decreases |ps|
  {
    if ps == [] then t[pos..]
    else
      var p := ps[0];
      t[pos..p.start] + (Replacement(t[p.start..p.end], numbers[p.name]) + Splice(t, p.end, ps[1..], numbers))
  }

  /** Rewriting is splicing the replacements of the leftmost-first matches into the text. */
  lemma {:induction false} RewriteIsSplice(t: string, pos: nat, numbers: map<string, nat>)
    requires pos <= |t| && Numbered(t, pos, numbers)
    ensures InOrder(t, pos, Scan(t, pos))
    ensures Rewrite(t, pos, numbers) == Splice(t, pos, Scan(t, pos), numbers)
    decreases |t| - pos
  {
    ScanInOrder(t, pos);
    if pos < |t| {
      match MatchAt(t, pos)
      case Some(end) =>
        RewriteIsSplice(t, end, numbers);
        SpliceAtMatch(t, pos, end, numbers);
      case None =>
        RewriteIsSplice(t, pos + 1, numbers);
        SpliceOverNoMatch(t, pos, numbers);
    }
  }

  lemma ScanInOrder(t: string, pos: nat)
    requires pos <= |t|
    ensures InOrder(t, pos, Scan(t, pos))
  {
    ScanIsLeftmostFirst(t, pos);
    LeftmostFirstIsInOrder(t, pos, Scan(t, pos));
  }

  /** Splicing matches whose first starts right here: its replacement, then the rest. */
  lemma SpliceAtStart(t: string, p: Placeholder, rest: seq<Placeholder>, numbers: map<string, nat>)
    requires p.start <= |t| && InOrder(t, p.start, [p] + rest) && NamesIn([p] + rest, numbers)
    ensures InOrder(t, p.end, rest) && NamesIn(rest, numbers)
    ensures Splice(t, p.start, [p] + rest, numbers) ==
      Replacement(t[p.start..p.end], numbers[p.name]) + Splice(t, p.end, rest, numbers)
  {
    assert ([p] + rest)[1..] == rest;
    assert t[p.start..p.start] == [];
  }

  lemma AppendAssociates<T>(a: seq<T>, b: seq<T>, c: seq<T>)
    ensures (a + b) + c == a + (b + c)
  {
  }

  /** Splicing from a position before the first match: that character, then the rest. */
  lemma SpliceSkip(t: string, pos: nat, ps: seq<Placeholder>, numbers: map<string, nat>)
    requires pos < |t| && InOrder(t, pos + 1, ps) && NamesIn(ps, numbers)
    ensures InOrder(t, pos, ps)
    ensures Splice(t, pos, ps, numbers) == [t[pos]] + Splice(t, pos + 1, ps, numbers)
  {
    if ps == [] {
      assert t[pos..] == [t[pos]] + t[pos + 1..];
    } else {
      var p := ps[0];
      var rest := Replacement(t[p.start..p.end], numbers[p.name]) + Splice(t, p.end, ps[1..], numbers);
      assert t[pos..p.start] == [t[pos]] + t[pos + 1..p.start];
      AppendAssociates([t[pos]], t[pos + 1..p.start], rest);
    }
  }

  lemma SpliceAtMatch(t: string, pos: nat, end: nat, numbers: map<string, nat>)
    requires pos < |t| && MatchAt(t, pos) == Some(end) && Numbered(t, pos, numbers)
    requires InOrder(t, pos, Scan(t, pos)) && InOrder(t, end, Scan(t, end))
    ensures Splice(t, pos, Scan(t, pos), numbers) ==
      Replacement(t[pos..end], numbers[t[pos + 2..end - 2]]) + Splice(t, end, Scan(t, end), numbers)
  {
    ScanAtMatch(t, pos, end);
    SpliceAtStart(t, Placeholder(pos, end, t[pos + 2..end - 2]), Scan(t, end), numbers);
  }

  lemma SpliceOverNoMatch(t: string, pos: nat, numbers: map<string, nat>)
    requires pos < |t| && MatchAt(t, pos) == None && Numbered(t, pos, numbers)
    requires InOrder(t, pos, Scan(t, pos)) && InOrder(t, pos + 1, Scan(t, pos + 1))
    ensures Splice(t, pos, Scan(t, pos), numbers) == [t[pos]] + Splice(t, pos + 1, Scan(t, pos + 1), numbers)
  {
    assert Scan(t, pos) == Scan(t, pos + 1);
    SpliceSkip(t, pos, Scan(t, pos + 1), numbers);
  }

  /** A template without placeholders is copied unchanged. */
  lemma {:induction false} RewriteWithoutMatches(t: string, pos: nat, numbers: map<string, nat>)
    requires pos <= |t| && Scan(t, pos) == []
    ensures Rewrite(t, pos, numbers) == t[pos..]
  {
    RewriteIsSplice(t, pos, numbers);
  }

  /** The merged text of a template whose labels are numbered from `first`. */
  function Expand(t: string, first: nat): string
  {
    var order := LabelOrder(t);
    Rewrite(t, 0, Numbering(order, first))
  }

  /**
   * Numbering a list of distinct names hands out the numbers `first` up to
   * `first + |order|`, each to exactly one name.
   */
  lemma NumberingIsFresh(order: seq<string>, first: nat)
    requires Distinct(order)
    ensures var numbers := Numbering(order, first);
      (forall x :: x in numbers ==> first <= numbers[x] < first + |order|) &&
      (forall x, y :: x in numbers && y in numbers && x != y ==> numbers[x] != numbers[y])
  {
    var numbers := Numbering(order, first);
    forall x | x in numbers
      ensures exists k :: 0 <= k < |order| && order[k] == x && numbers[x] == first + k
    {
      var k :| 0 <= k < |order| && order[k] == x;
    }
  }

  /** The label counter advances by the number of distinct placeholder names. */
  lemma LabelCountIsDistinctNames(t: string)
    ensures |LabelOrder(t)| == |set p | p in Scan(t, 0) :: p.name|
  {
    var order := LabelOrder(t);
    DistinctCardinality(order);
    LabelOrderNames(t);
    assert (set x | x in order) == (set p | p in Scan(t, 0) :: p.name);
  }

  /** The merged text is the template with each leftmost-first match replaced by its label number. */
  lemma ExpandIsSplice(t: string, first: nat)
    ensures InOrder(t, 0, Scan(t, 0))
    ensures Expand(t, first) == Splice(t, 0, Scan(t, 0), Numbering(LabelOrder(t), first))
  {
    RewriteIsSplice(t, 0, Numbering(LabelOrder(t), first));
  }

  lemma {:induction false} DistinctCardinality(s: seq<string>)
    requires Distinct(s)
    ensures |set x | x in s| == |s|
    decreases |s|
  {
    if s != [] {
      var prefix := s[..|s| - 1];
      DistinctCardinality(prefix);
      assert (set x | x in s) == (set x | x in prefix) + {s[|s| - 1]};
      assert s[|s| - 1] !in prefix;
    }
  }

  lemma {:induction false} DedupNoLonger(names: seq<string>)
    ensures |Dedup(names)| <= |names|
    decreases |names|
  {
    if names != [] {
      DedupNoLonger(names[..|names| - 1]);
    }
  }

  lemma LeadingExampleMatches()
    ensures Scan("{a} {a}\n", 0) == [Placeholder(3, 8, "a")]
    ensures LabelOrder("{a} {a}\n") == ["a"]
  {
    var t := "{a} {a}\n";
    assert MatchAt(t, 0) == None && MatchAt(t, 1) == None && MatchAt(t, 2) == None;
    assert MatchAt(t, 3) == Some(8);
    assert Scan(t, 8) == [];
    assert t[5..6] == "a";
    assert Scan(t, 3) == [Placeholder(3, 8, "a")];
    assert Scan(t, 2) == Scan(t, 3);
    assert Scan(t, 1) == Scan(t, 2);
    assert Names(Scan(t, 0)) == ["a"];
  }

  /**
   * A placeholder at the very start of a template has no character before it,
   * so it is left as it is: only the second `{a}` below becomes a label.
   */
  lemma LeadingPlaceholderIsKept(first: nat)
    ensures Expand("{a} {a}\n", first) == "{a} " + NatText(first) + "\n"
  {
    LeadingExampleMatches();
    ExpandIsSplice("{a} {a}\n", first);
    LeadingExampleSplice(first);
  }

  lemma LeadingExampleSplice(first: nat)
    ensures Splice("{a} {a}\n", 0, [Placeholder(3, 8, "a")], Numbering(["a"], first)) == "{a} " + NatText(first) + "\n"
  {
    var t := "{a} {a}\n";
    var numbers := Numbering(["a"], first);
    var n := NatText(first);
    assert numbers["a"] == first;
    assert t[0..3] == "{a}" && t[3..8] == " {a}\n" && t[8..] == [];
    var r := Replacement(" {a}\n", first);
    assert r == [' '] + n + ['\n'];
    assert Splice(t, 0, [Placeholder(3, 8, "a")], numbers) == "{a}" + (r + []);
    AppendAssociates("{a}", [' '] + n, ['\n']);
    AppendAssociates("{a}", [' '], n);
    assert "{a}" + [' '] == "{a} ";
  }

  lemma NeighbouringExampleMatches()
    ensures Scan(" {a} {b} ", 0) == [Placeholder(0, 5, "a")]
    ensures LabelOrder(" {a} {b} ") == ["a"]
  {
    var t := " {a} {b} ";
    assert MatchAt(t, 0) == Some(5);
    assert MatchAt(t, 5) == None && MatchAt(t, 6) == None && MatchAt(t, 7) == None && MatchAt(t, 8) == None;
    assert Scan(t, 9) == [] && Scan(t, 8) == [] && Scan(t, 7) == [] && Scan(t, 6) == [] && Scan(t, 5) == [];
    assert t[2..3] == "a";
    assert Names(Scan(t, 0)) == ["a"];
  }

  /**
   * Two placeholders one character apart: the first match consumes the
   * character after it, so the second is not found and stays in the text.
   */
  lemma NeighbouringPlaceholderIsMissed(first: nat)
    ensures Expand(" {a} {b} ", first) == " " + NatText(first) + " {b} "
  {
    NeighbouringExampleMatches();
    ExpandIsSplice(" {a} {b} ", first);
    NeighbouringExampleSplice(first);
  }

  lemma NeighbouringExampleSplice(first: nat)
    ensures Splice(" {a} {b} ", 0, [Placeholder(0, 5, "a")], Numbering(["a"], first)) == " " + NatText(first) + " {b} "
  {
    var t := " {a} {b} ";
    var numbers := Numbering(["a"], first);
    assert numbers["a"] == first;
    assert t[0..0] == [] && t[0..5] == " {a} " && t[5..] == "{b} ";
    var r := Replacement(" {a} ", first);
    assert r == [' '] + NatText(first) + [' '];
    assert Splice(t, 0, [Placeholder(0, 5, "a")], numbers) == [] + (r + "{b} ");
  }

  /** The number of bytes a character takes in UTF-8. */
  function Utf8Width(c: char): (w: nat)
    ensures 1 <= w <= 4 && (w == 1 <==> c as int < 0x80)
  {
    if c as int < 0x80 then 1 else if c as int < 0x800 then 2 else if c as int < 0x1_0000 then 3 else 4
  }

  /** `str::len`: the length of a text in bytes. */
  function Utf8Length(s: string): (n: nat)
    ensures n >= |s|
    ensures n == |s| <==> forall k :: 0 <= k < |s| ==> s[k] as int < 0x80
  {
    if s == [] then 0
    else
      assert forall k :: 1 <= k < |s| ==> s[k] == s[1..][k - 1];
      Utf8Width(s[0]) + Utf8Length(s[1..])
  }

  /**
   * The replacement as written: the last character is looked up by
   * character position `len() - 1`, where `len()` counts bytes; a lookup past
   * the last character is the panic of `unwrap`.
   */
  function ReplacementAsWritten(raw: string, number: nat): Option<string>
    requires |raw| >= 2
  {
    var k := Utf8Length(raw) - 1;
    if k < |raw| then Some([raw[0]] + NatText(number) + [raw[k]]) else None
  }

  /** On ASCII text the code as written agrees with the intended replacement ... */
  lemma ReplacementAsWrittenOnAscii(raw: string, number: nat)
    requires |raw| >= 2 && forall k :: 0 <= k < |raw| ==> raw[k] as int < 0x80
    ensures ReplacementAsWritten(raw, number) == Some(Replacement(raw, number))
  {
  }

  /** ... and on any match holding a character outside ASCII it panics, as `x{é}y` shows. */
  lemma ReplacementAsWrittenPanicsOnWideCharacters(raw: string, number: nat)
    requires |raw| >= 2 && exists k :: 0 <= k < |raw| && raw[k] as int >= 0x80
    ensures ReplacementAsWritten(raw, number) == None
    ensures IsMatch("x{\U{e9}}y", 0, 5) && ReplacementAsWritten("x{\U{e9}}y", number) == None
  {
  }
}
