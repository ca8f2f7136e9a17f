/** The strict reader of compatibility.yaml (scripts/release_compatibility.py, `parse_subset`). */
module CompatibilityFile {
  import opened Results
  import opened Text

  /** A Python dictionary keeps the order in which its keys were first written. */
  datatype Value = Num(n: nat) | Str(s: string) | Sub(entries: seq<Entry>)

  datatype Entry = Entry(key: string, value: Value)

  datatype Reason = Tabs | Indentation | NotAKey | DuplicateKey | Quoting | Unsupported

  datatype Refusal = Refusal(line: nat, reason: Reason)

  // --- one line ------------------------------------------------------------

  /** What follows `key:`, when the line is one. */
  datatype Parts = NoParts | Parts(key: string, value: string)

  predicate IsKeyChar(c: char) { IsLetter(c) || IsDigit(c) }

  predicate IsKey(key: string) {
    key != "" && IsLetter(key[0]) && forall i :: 0 <= i < |key| ==> IsKeyChar(key[i])
  }

  /** `([A-Za-z][A-Za-z0-9]*):(?: (.*))?` over the whole stripped line. */
  function SplitKey(s: string): (p: Parts)
    ensures p.Parts? ==> IsKey(p.key)
  {
    var n := PrefixLength(s, IsKeyChar);
    if n == 0 || !IsLetter(s[0]) || n == |s| || s[n] != ':' then NoParts
    else if n + 1 == |s| then Parts(s[..n], "")
    else if s[n + 1] != ' ' then NoParts
    else Parts(s[..n], s[n + 2..])
  }

  const FORBIDDEN := "{}[]&*!|>%@`#"

  function Scalar(text: string): (r: Result<Value, Reason>)
    requires text != ""
    ensures r.Success? ==> !r.value.Sub?
  {
    if text[0] == '\'' || text[0] == '"' then
      if |text| < 2 || text[|text| - 1] != text[0] || text[0] in text[1..|text| - 1] then Failure(Quoting)
      else Success(Str(text[1..|text| - 1]))
    else if exists c :: c in FORBIDDEN && c in text then Failure(Unsupported)
    else if IsCanonicalNumber(text) then Success(Num(Number(text)))
    else Success(Str(text))
  }

  function IndentOf(line: string): nat {
    PrefixLength(line, IsBlank)
  }

  /** The value a key is given: a scalar, or a new empty mapping. */
  function ReadValue(value: string): (r: Result<Value, Reason>)
    ensures r.Success? && r.value.Sub? ==> r.value.entries == []
  {
    var text := Strip(value);
    if text == "" then Success(Sub([])) else Scalar(text)
  }

  /** A line as far as it can be read without knowing which mappings are open. */
  datatype Line =
    | Skipped
    | Tabbed
    | Keyless(indent: nat)
    | Keyed(indent: nat, key: string, value: Result<Value, Reason>)

  predicate ReadsShell(line: Line) {
    line.Keyed? && line.value.Success? && line.value.value.Sub? ==> line.value.value.entries == []
  }

  function ReadLine(line: string): (r: Line)
    ensures ReadsShell(r)
  {
    var stripped := Strip(line);
    if stripped == "" || stripped[0] == '#' then Skipped
    else if '\t' in line then Tabbed
    else
      match SplitKey(stripped)
      case NoParts => Keyless(IndentOf(line))
      case Parts(key, value) => Keyed(IndentOf(line), key, ReadValue(value))
  }

  function ReadLines(lines: seq<string>): (r: seq<Line>)
    ensures |r| == |lines|
    ensures forall i :: 0 <= i < |r| ==> r[i] == ReadLine(lines[i])
  {
    if lines == [] then [] else [ReadLine(lines[0])] + ReadLines(lines[1..])
  }

  // --- the mappings being read ---------------------------------------------

  /** The keys of a mapping. */
  function Keys(es: seq<Entry>): set<string> {
    set i | 0 <= i < |es| :: es[i].key
  }

  /** Following the last entry `depth` times meets a mapping every time: each open mapping is the
      newest child of the one below it. */
  predicate Live(root: seq<Entry>, depth: nat) {
    depth == 0 || (root != [] && root[|root| - 1].value.Sub? && Live(root[|root| - 1].value.entries, depth - 1))
  }

  /** The mapping open at `depth`. */
  function Open(root: seq<Entry>, depth: nat): seq<Entry>
    requires Live(root, depth)
  {
    if depth == 0 then root else Open(root[|root| - 1].value.entries, depth - 1)
  }

  /** Writing new entries into the mapping open at `depth`. */
  function Extend(root: seq<Entry>, depth: nat, es: seq<Entry>): (r: seq<Entry>)
    requires Live(root, depth)
    ensures Live(r, depth) && Open(r, depth) == Open(root, depth) + es
  {
    if depth == 0 then root + es
    else
      var last := root[|root| - 1];
      root[..|root| - 1] + [Entry(last.key, Sub(Extend(last.value.entries, depth - 1, es)))]
  }

  datatype State = State(root: seq<Entry>, depth: nat)

  /** Writing `key` at `depth` in what is open; a new mapping is then open below it. */
  function Write(st: State, depth: nat, key: string, value: Value): (r: State)
    requires Live(st.root, st.depth) && depth <= st.depth
    requires value.Sub? ==> value.entries == []
    ensures Live(r.root, r.depth)
  {
    LiveBelow(st.root, st.depth, depth);
    if value.Sub? then
      LiveChild(st.root, depth, key);
      State(Extend(st.root, depth, [Entry(key, value)]), depth + 1)
    else
      State(Extend(st.root, depth, [Entry(key, value)]), depth)
  }

  /** One line of the file, given what is open before it. */
  function Step(st: State, line: Line): (r: Result<State, Reason>)
    requires Live(st.root, st.depth) && ReadsShell(line)
    ensures r.Success? ==> Live(r.value.root, r.value.depth)
  {
    match line
    case Skipped => Success(st)
    case Tabbed => Failure(Tabs)
    case Keyless(indent) =>
      if Reopens(st.depth, indent) then Failure(NotAKey) else Failure(Indentation)
    case Keyed(indent, key, value) =>
      if !Reopens(st.depth, indent) then Failure(Indentation)
      else
        LiveBelow(st.root, st.depth, indent / 2);
        if key in Keys(Open(st.root, indent / 2)) then Failure(DuplicateKey)
        else
          match value
          case Failure(reason) => Failure(reason)
          case Success(read) => Success(Write(st, indent / 2, key, read))
  }

  /** Whether closing mappings can reach one whose keys are indented by `indent`. */
  predicate Reopens(depth: nat, indent: nat) {
    indent % 2 == 0 && indent / 2 <= depth
  }

  lemma {:induction false} LiveBelow(root: seq<Entry>, depth: nat, below: nat)
    requires Live(root, depth) && below <= depth
    ensures Live(root, below)
  {
    if below == 0 {
    } else {
      LiveBelow(root[|root| - 1].value.entries, depth - 1, below - 1);
    }
  }

  /** A child just written can be opened, and is empty. */
  lemma {:induction false} LiveChild(root: seq<Entry>, depth: nat, key: string)
    requires Live(root, depth)
    ensures Live(Extend(root, depth, [Entry(key, Sub([]))]), depth + 1)
    ensures Open(Extend(root, depth, [Entry(key, Sub([]))]), depth + 1) == []
  {
    if depth == 0 {
    } else {
      LiveChild(root[|root| - 1].value.entries, depth - 1, key);
    }
  }

  /** The lines from number `number` on. */
  function Run(st: State, lines: seq<Line>, number: nat): (r: Result<State, Refusal>)
    requires Live(st.root, st.depth)
    requires forall line :: line in lines ==> ReadsShell(line)
    ensures r.Success? ==> Live(r.value.root, r.value.depth)
    decreases |lines|
  {
    if lines == [] then Success(st)
    else
      match Step(st, lines[0])
      case Failure(reason) => Failure(Refusal(number, reason))
      case Success(next) => Run(next, lines[1..], number + 1)
  }

  function Parse(text: string): Result<seq<Entry>, Refusal> {
    match Run(State([], 0), ReadLines(SplitLines(text)), 1)
    case Failure(refusal) => Failure(refusal)
    case Success(st) => Success(st.root)
  }

  lemma {:induction false} ExtendTwice(root: seq<Entry>, depth: nat, a: seq<Entry>, b: seq<Entry>)
    requires Live(root, depth)
    ensures Extend(Extend(root, depth, a), depth, b) == Extend(root, depth, a + b)
  {
    if depth == 0 {
      assert root + a + b == root + (a + b);
    } else {
      var last, once := root[|root| - 1], Extend(root, depth, a);
      assert once[..|once| - 1] == root[..|root| - 1];
      assert once[|once| - 1].value.entries == Extend(last.value.entries, depth - 1, a);
      ExtendTwice(last.value.entries, depth - 1, a, b);
    }
  }

  /** Filling a new child where it hangs is writing it filled. */
  lemma {:induction false} ExtendChild(root: seq<Entry>, depth: nat, key: string, es: seq<Entry>)
    requires Live(root, depth) && Live(Extend(root, depth, [Entry(key, Sub([]))]), depth + 1)
    ensures Extend(Extend(root, depth, [Entry(key, Sub([]))]), depth + 1, es)
         == Extend(root, depth, [Entry(key, Sub(es))])
  {
    if depth > 0 {
      ExtendChild(root[|root| - 1].value.entries, depth - 1, key, es);
    } else {
      var grown := root + [Entry(key, Sub([]))];
      assert grown[..|grown| - 1] == root && [] + es == es;
    }
  }

  lemma {:induction false} ExtendNothing(root: seq<Entry>, depth: nat)
    requires Live(root, depth)
    ensures Extend(root, depth, []) == root
  {
    if depth == 0 {
    } else {
      ExtendNothing(root[|root| - 1].value.entries, depth - 1);
    }
  }

  lemma {:induction false} RunJoin(st: State, lines: seq<Line>, a: seq<Line>, b: seq<Line>, number: nat, mid: State)
    requires Live(st.root, st.depth) && lines == a + b
    requires forall line :: line in a ==> ReadsShell(line)
    requires forall line :: line in b ==> ReadsShell(line)
    requires forall line :: line in lines ==> ReadsShell(line)
    requires Run(st, a, number) == Success(mid)
    ensures Run(st, lines, number) == Run(mid, b, number + |a|)
    decreases |a|
  {
    if a == [] {
      assert lines == b;
    } else {
      RunJoin(Step(st, a[0]).value, lines[1..], a[1..], b, number + 1, mid);
    }
  }

  lemma {:induction false} RunOne(st: State, line: Line, number: nat, next: State)
    requires Live(st.root, st.depth) && ReadsShell(line) && Step(st, line) == Success(next)
    ensures Run(st, [line], number) == Success(next)
  {
    assert [line][1..] == [];
  }
}
