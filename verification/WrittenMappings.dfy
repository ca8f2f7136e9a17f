/** Every way of writing a compatibility mapping that its reader takes back, and every line it refuses
    (scripts/release_compatibility.py, `parse_subset`). */
module WrittenMappings {
  import opened Results
  import opened Text
  import opened CompatibilityFile

  // --- spellings -----------------------------------------------------------

  /** A blank line or a comment, or a key with what is written after its colon. */
  datatype Item = Noise(line: string) | Pair(key: string, spelling: Spelling)

  /** A scalar between white space, or nothing but white space and then the lines of a nested mapping. */
  datatype Spelling =
    | Plain(pad: string, text: string, trail: string)
    | Quoted(pad: string, quote: char, text: string, trail: string)
    | Below(trail: string, items: seq<Item>)

  /** Text that can be part of a line. */
  predicate InLine(s: string) {
    NoBreak(s) && '\t' !in s
  }

  predicate IsFill(s: string) {
    InLine(s) && forall i :: 0 <= i < |s| ==> IsSpace(s[i])
  }

  predicate IsQuote(c: char) { c == '\'' || c == '"' }

  /** Text that may stand without quotes. */
  predicate IsPlain(s: string) {
    && s != "" && !IsSpace(s[0]) && !IsSpace(s[|s| - 1]) && !IsQuote(s[0])
    && forall c :: c in s ==> c !in FORBIDDEN
  }

  predicate IsQuoted(quote: char, s: string) {
    IsQuote(quote) && quote !in s
  }

  /** A line that says something. */
  predicate Significant(line: string) {
    Strip(line) != "" && Strip(line)[0] != '#'
  }

  /** Keys of the file's grammar, each written once in its mapping, with scalars that can be read. */
  predicate Readable(items: seq<Item>) {
    items == [] || (ReadableItem(items[0]) && NewKey(items[0], items[1..]) && Readable(items[1..]))
  }

  /** The item's key is given by no other. */
  predicate NewKey(item: Item, others: seq<Item>) {
    forall i :: item.Pair? && 0 <= i < |others| && others[i].Pair? ==> others[i].key != item.key
  }

  predicate ReadableItem(item: Item) {
    match item
    case Noise(line) => NoBreak(line) && !Significant(line)
    case Pair(key, spelling) => IsKey(key) && ReadableSpelling(spelling)
  }

  predicate ReadableSpelling(spelling: Spelling) {
    match spelling
    case Plain(pad, text, trail) => IsFill(pad) && IsFill(trail) && InLine(text) && IsPlain(text)
    case Quoted(pad, quote, text, trail) => IsFill(pad) && IsFill(trail) && InLine(text) && IsQuoted(quote, text)
    case Below(trail, items) => IsFill(trail) && Readable(items)
  }

  /** What a spelling means: plain text is itself, unless it is a number. */
  function Meaning(spelling: Spelling): Value {
    match spelling
    case Plain(_, text, _) => if IsCanonicalNumber(text) then Num(Number(text)) else Str(text)
    case Quoted(_, _, text, _) => Str(text)
    case Below(_, items) => Sub(Entries(items))
  }

  function Entries(items: seq<Item>): seq<Entry> {
    if items == [] then [] else EntryOf(items[0]) + Entries(items[1..])
  }

  function EntryOf(item: Item): (es: seq<Entry>)
    ensures |es| <= 1
  {
    if item.Noise? then [] else [Entry(item.key, Meaning(item.spelling))]
  }

  function Spaces(n: nat): (s: string)
    ensures |s| == n && forall i :: 0 <= i < n ==> s[i] == ' '
  {
    if n == 0 then "" else " " + Spaces(n - 1)
  }

  /** The scalar as it stands on its line. */
  function Body(spelling: Spelling): string
    requires !spelling.Below?
  {
    if spelling.Plain? then spelling.text else [spelling.quote] + spelling.text + [spelling.quote]
  }

  /** What follows the key's colon and a space, if anything does. */
  function GivenText(spelling: Spelling): string {
    if spelling.Below? then "" else spelling.pad + Body(spelling)
  }

  function AfterKey(spelling: Spelling): string {
    if spelling.Below? then ":" else ": " + GivenText(spelling)
  }

  function LineOf(item: Item, depth: nat): string {
    match item
    case Noise(line) => line
    case Pair(key, spelling) => Spaces(2 * depth) + (key + AfterKey(spelling)) + spelling.trail
  }

  /** The lines of a mapping, two spaces of indentation to a level. */
  function Lines(items: seq<Item>, depth: nat): seq<string>
    decreases items, 2
  {
    if items == [] then [] else ItemLines(items[0], depth) + Lines(items[1..], depth)
  }

  function ItemLines(item: Item, depth: nat): seq<string>
    decreases item, 1
  {
    [LineOf(item, depth)] + LinesBelow(item, depth)
  }

  function LinesBelow(item: Item, depth: nat): seq<string>
    decreases item, 0
  {
    if item.Pair? && item.spelling.Below? then Lines(item.spelling.items, depth + 1) else []
  }

  // --- reading one line ----------------------------------------------------

  /** A key of the file's grammar: a letter, and then letters and digits. */
  predicate IsName(key: string) {
    key != "" && IsLetter(key[0]) && forall c :: c in key ==> IsLetter(c) || IsDigit(c)
  }

  /** A line holds a key and what it is given: nothing, or all that follows one space. */
  ghost predicate Gives(stripped: string, key: string, value: string) {
    IsName(key) && (stripped == key + ": " + value || (stripped == key + ":" && value == ""))
  }

  /** A line is split into a key and a value exactly when it holds them. */
  lemma {:induction false} SplitKeyExactly(s: string, key: string, value: string)
    ensures SplitKey(s) == Parts(key, value) <==> Gives(s, key, value)
  {
    if SplitKey(s).Parts? {
      assert s == SplitKey(s).key + s[|SplitKey(s).key|..];
      assert Gives(s, SplitKey(s).key, SplitKey(s).value);
    }
    if Gives(s, key, value) {
      PrefixLengthIs(s, IsKeyChar, |key|);
      assert s[..|key|] == key;
      assert |s| > |key| + 1 ==> s[|key| + 2..] == value;
    }
  }

  /** What a mapping's own line says of its value: a nested mapping starts empty. */
  function Shell(v: Value): Value {
    if v.Sub? then Sub([]) else v
  }

  lemma {:induction false} ReadBody(spelling: Spelling)
    requires ReadableSpelling(spelling)
    ensures ReadValue(GivenText(spelling)) == Success(Shell(Meaning(spelling)))
  {
    if !spelling.Below? {
      var body := Body(spelling);
      StripIs(spelling.pad, body, "");
      assert spelling.pad + body + "" == spelling.pad + body;
      if spelling.Plain? {
        assert body[0] in body;
      } else {
        assert body[1..|body| - 1] == spelling.text;
      }
    }
  }

  /** An item's own line, as it reads back. */
  function LineRead(item: Item, depth: nat): (line: Line)
    ensures ReadsShell(line)
  {
    match item
    case Noise(_) => Skipped
    case Pair(key, spelling) => Keyed(2 * depth, key, Success(Shell(Meaning(spelling))))
  }

  lemma {:induction false} StripPair(key: string, spelling: Spelling, depth: nat)
    requires IsKey(key) && ReadableSpelling(spelling)
    ensures var line := LineOf(Pair(key, spelling), depth);
      Strip(line) == key + AfterKey(spelling) && IndentOf(line) == 2 * depth
  {
    var spaces, core, after := Spaces(2 * depth), key + AfterKey(spelling), AfterKey(spelling);
    assert core[0] == key[0] && core[|core| - 1] == after[|after| - 1];
    StripIs(spaces, core, spelling.trail);
    PrefixLengthIs(spaces + core + spelling.trail, IsBlank, |spaces|);
  }

  lemma {:induction false} KeyInLine(key: string)
    requires IsKey(key)
    ensures InLine(key)
  {
    forall c | c in key ensures c != '\t' && !IsBreak(c) {
      var i :| 0 <= i < |key| && key[i] == c;
      assert IsKeyChar(key[i]);
    }
  }

  lemma {:induction false} LineInLine(item: Item, depth: nat)
    requires ReadableItem(item)
    ensures NoBreak(LineOf(item, depth)) && (item.Pair? ==> '\t' !in LineOf(item, depth))
  {
    if item.Pair? {
      KeyInLine(item.key);
      assert InLine(AfterKey(item.spelling));
    }
  }

  lemma {:induction false} ReadPair(key: string, spelling: Spelling, depth: nat)
    requires IsKey(key) && ReadableSpelling(spelling)
    ensures ReadLine(LineOf(Pair(key, spelling), depth)) == LineRead(Pair(key, spelling), depth)
  {
    StripPair(key, spelling, depth);
    LineInLine(Pair(key, spelling), depth);
    ReadBody(spelling);
    SplitKeyExactly(key + AfterKey(spelling), key, GivenText(spelling));
    assert Gives(key + AfterKey(spelling), key, GivenText(spelling));
  }

  lemma {:induction false} ReadWritten(item: Item, depth: nat)
    requires ReadableItem(item)
    ensures ReadLine(LineOf(item, depth)) == LineRead(item, depth)
  {
    if item.Pair? {
      ReadPair(item.key, item.spelling, depth);
    }
  }

  // --- reading all lines ---------------------------------------------------

  /** The lines of a mapping, as they read back. */
  function ItemsRead(items: seq<Item>, depth: nat): (lines: seq<Line>)
    ensures forall line :: line in lines ==> ReadsShell(line)
    decreases items, 2
  {
    if items == [] then [] else ItemRead(items[0], depth) + ItemsRead(items[1..], depth)
  }

  function ItemRead(item: Item, depth: nat): (lines: seq<Line>)
    ensures forall line :: line in lines ==> ReadsShell(line)
    decreases item, 1
  {
    [LineRead(item, depth)] + BelowRead(item, depth)
  }

  function BelowRead(item: Item, depth: nat): (lines: seq<Line>)
    ensures forall line :: line in lines ==> ReadsShell(line)
    decreases item, 0
  {
    if item.Pair? && item.spelling.Below? then ItemsRead(item.spelling.items, depth + 1) else []
  }

  lemma {:induction false} ReadLinesJoin(a: seq<string>, b: seq<string>)
    ensures ReadLines(a + b) == ReadLines(a) + ReadLines(b)
  {
  }

  /** Every line written reads back as what it was written for. */
  lemma {:induction false} ReadWrittenLines(items: seq<Item>, depth: nat)
    requires Readable(items)
    ensures ReadLines(Lines(items, depth)) == ItemsRead(items, depth)
    ensures forall line :: line in Lines(items, depth) ==> NoBreak(line)
    decreases items, 1
  {
    if items == [] {
    } else {
      ReadWrittenItem(items[0], depth);
      ReadWrittenLines(items[1..], depth);
      ReadLinesJoin(ItemLines(items[0], depth), Lines(items[1..], depth));
    }
  }

  lemma {:induction false} ReadWrittenItem(item: Item, depth: nat)
    requires ReadableItem(item)
    ensures ReadLines(ItemLines(item, depth)) == ItemRead(item, depth)
    ensures forall line :: line in ItemLines(item, depth) ==> NoBreak(line)
    decreases item, 0
  {
    ReadWritten(item, depth);
    LineInLine(item, depth);
    if item.Pair? && item.spelling.Below? {
      ReadWrittenLines(item.spelling.items, depth + 1);
    }
    assert ItemLines(item, depth)[0] == LineOf(item, depth);
    assert ItemLines(item, depth)[1..] == LinesBelow(item, depth);
  }

  /** How many mappings are open below the root after these items, which stand in the mapping at `depth`. */
  function Opened(open: nat, depth: nat, items: seq<Item>): nat
    decreases items, 1
  {
    if items == [] then open else Opened(OpenedBy(open, depth, items[0]), depth, items[1..])
  }

  function OpenedBy(open: nat, depth: nat, item: Item): nat
    decreases item, 0
  {
    match item
    case Noise(_) => open
    case Pair(_, spelling) => if spelling.Below? then Opened(depth + 1, depth + 1, spelling.items) else depth
  }

  /** Keys not yet written in the open mapping. */
  ghost predicate Fresh(items: seq<Item>, open: seq<Entry>) {
    forall i :: 0 <= i < |items| && items[i].Pair? ==> items[i].key !in Keys(open)
  }

  /** Reading the lines of `items` at `depth` writes exactly what they mean into the mapping open there, and
      leaves that mapping open. */
  lemma {:induction false} RunItems(st: State, depth: nat, items: seq<Item>, number: nat) returns (end: State)
    requires Live(st.root, st.depth) && depth <= st.depth && Live(st.root, depth)
    requires Readable(items) && Fresh(items, Open(st.root, depth))
    ensures Live(end.root, end.depth) && depth <= end.depth
    ensures end == State(Extend(st.root, depth, Entries(items)), Opened(st.depth, depth, items))
    ensures Run(st, ItemsRead(items, depth), number) == Success(end)
    decreases items, 1
  {
    if items == [] {
      ExtendNothing(st.root, depth);
      end := st;
    } else {
      var mid := RunItem(st, depth, items[0], number);
      LiveBelow(mid.root, mid.depth, depth);
      StillFresh(st.root, depth, items);
      end := RunItems(mid, depth, items[1..], number + |ItemRead(items[0], depth)|);
      RunNext(st, depth, items, number, mid, end);
      ExtendTwice(st.root, depth, EntryOf(items[0]), Entries(items[1..]));
    }
  }

  lemma {:induction false} RunNext(st: State, depth: nat, items: seq<Item>, number: nat, mid: State, end: State)
    requires Live(st.root, st.depth) && Live(mid.root, mid.depth) && items != []
    requires Run(st, ItemRead(items[0], depth), number) == Success(mid)
    requires Run(mid, ItemsRead(items[1..], depth), number + |ItemRead(items[0], depth)|) == Success(end)
    ensures Run(st, ItemsRead(items, depth), number) == Success(end)
  {
    RunJoin(st, ItemsRead(items, depth), ItemRead(items[0], depth), ItemsRead(items[1..], depth), number, mid);
  }

  lemma {:induction false} StillFresh(root: seq<Entry>, depth: nat, items: seq<Item>)
    requires Live(root, depth) && items != [] && Readable(items) && Fresh(items, Open(root, depth))
    ensures Fresh(items[1..], Open(Extend(root, depth, EntryOf(items[0])), depth))
  {
    var open, next := Open(root, depth), Open(Extend(root, depth, EntryOf(items[0])), depth);
    forall i | 0 <= i < |items[1..]| && items[1..][i].Pair? ensures items[1..][i].key !in Keys(next) {
      assert forall j :: 0 <= j < |open| ==> open[j].key in Keys(open);
    }
  }

  lemma {:induction false} RunItem(st: State, depth: nat, item: Item, number: nat) returns (end: State)
    requires Live(st.root, st.depth) && depth <= st.depth && Live(st.root, depth)
    requires ReadableItem(item) && (item.Pair? ==> item.key !in Keys(Open(st.root, depth)))
    ensures Live(end.root, end.depth) && depth <= end.depth
    ensures end == State(Extend(st.root, depth, EntryOf(item)), OpenedBy(st.depth, depth, item))
    ensures Run(st, ItemRead(item, depth), number) == Success(end)
    decreases item, 0
  {
    var line := LineRead(item, depth);
    var next := StepItem(st, depth, item);
    if item.Pair? && item.spelling.Below? {
      LiveChild(st.root, depth, item.key);
      end := RunItems(next, depth + 1, item.spelling.items, number + 1);
      ExtendChild(st.root, depth, item.key, Entries(item.spelling.items));
    } else {
      end := next;
    }
    RunOne(st, line, number, next);
    RunJoin(st, ItemRead(item, depth), [line], BelowRead(item, depth), number, next);
  }

  lemma {:induction false} StepItem(st: State, depth: nat, item: Item) returns (next: State)
    requires Live(st.root, st.depth) && depth <= st.depth && Live(st.root, depth)
    requires item.Pair? ==> item.key !in Keys(Open(st.root, depth))
    ensures Live(next.root, next.depth)
    ensures item.Noise? ==> next == State(Extend(st.root, depth, []), st.depth)
    ensures item.Pair? ==>
      next == State(Extend(st.root, depth, [Entry(item.key, Shell(Meaning(item.spelling)))]),
                    if item.spelling.Below? then depth + 1 else depth)
    ensures Step(st, LineRead(item, depth)) == Success(next)
  {
    if item.Pair? {
      next := Write(st, depth, item.key, Shell(Meaning(item.spelling)));
    } else {
      next := st;
      ExtendNothing(st.root, depth);
    }
  }

  /** The state of the reader after some items. */
  lemma {:induction false} RunWritten(items: seq<Item>) returns (end: State)
    requires Readable(items)
    ensures end == State(Entries(items), Opened(0, 0, items)) && Live(end.root, end.depth)
    ensures Run(State([], 0), ReadLines(Lines(items, 0)), 1) == Success(end)
  {
    ReadWrittenLines(items, 0);
    end := RunItems(State([], 0), 0, items, 1);
    assert [] + Entries(items) == Entries(items);
  }

  /** However a mapping is spelt, reading it gives what the spelling means, order of keys included. */
  lemma {:induction false} ReadsMeaning(items: seq<Item>)
    requires Readable(items)
    ensures Parse(Unlines(Lines(items, 0))) == Success(Entries(items))
  {
    ReadWrittenLines(items, 0);
    SplitUnlines(Lines(items, 0));
    var end := RunWritten(items);
  }

  // --- every mapping -------------------------------------------------------

  /** Text that some spelling means. */
  predicate Spellable(s: string) {
    InLine(s) && ('"' !in s || '\'' !in s || IsPlain(s))
  }

  /** No mapping gives a key twice, every key is of the file's grammar, and every text can be spelt. */
  predicate Printable(es: seq<Entry>) {
    && (forall i, j :: 0 <= i < j < |es| ==> es[i].key != es[j].key)
    && (forall i :: 0 <= i < |es| ==> IsKey(es[i].key) && PrintableValue(es[i].value))
  }

  predicate PrintableValue(v: Value) {
    match v
    case Num(_) => true
    case Str(s) => Spellable(s)
    case Sub(entries) => Printable(entries)
  }

  function Spelt(v: Value): Spelling {
    match v
    case Num(n) => Plain("", Decimal(n), "")
    case Str(s) =>
      if '"' !in s then Quoted("", '"', s, "") else if '\'' !in s then Quoted("", '\'', s, "") else Plain("", s, "")
    case Sub(entries) => Below("", AllSpelt(entries))
  }

  function AllSpelt(es: seq<Entry>): (items: seq<Item>)
    ensures |items| == |es| && forall i :: 0 <= i < |es| ==> items[i].Pair? && items[i].key == es[i].key
  {
    if es == [] then [] else [Pair(es[0].key, Spelt(es[0].value))] + AllSpelt(es[1..])
  }

  function Render(es: seq<Entry>): string {
    Unlines(Lines(AllSpelt(es), 0))
  }

  lemma {:induction false} SpeltMeans(v: Value)
    requires PrintableValue(v)
    ensures ReadableSpelling(Spelt(v)) && Meaning(Spelt(v)) == v
    decreases v, 0
  {
    match v {
      case Num(n) =>
        DecimalIsPlain(n);
        NumberOfDecimal(n);
      case Str(s) =>
      case Sub(entries) =>
        AllSpeltMeans(entries);
    }
  }

  lemma {:induction false} DecimalIsPlain(n: nat)
    ensures IsPlain(Decimal(n)) && InLine(Decimal(n))
  {
    var s := Decimal(n);
    assert s[0] in s && s[|s| - 1] in s;
  }

  lemma {:induction false} AllSpeltMeans(es: seq<Entry>)
    requires Printable(es)
    ensures Readable(AllSpelt(es)) && Entries(AllSpelt(es)) == es
    decreases es, 1
  {
    if es == [] {
    } else {
      PrintableFirst(es);
      SpeltMeans(es[0].value);
      AllSpeltMeans(es[1..]);
      ReadableNext(Pair(es[0].key, Spelt(es[0].value)), AllSpelt(es[1..]));
    }
  }

  lemma {:induction false} PrintableFirst(es: seq<Entry>)
    requires Printable(es) && es != []
    ensures IsKey(es[0].key) && PrintableValue(es[0].value) && Printable(es[1..])
    ensures NewKey(Pair(es[0].key, Spelt(es[0].value)), AllSpelt(es[1..]))
  {
  }

  lemma {:induction false} ReadableNext(item: Item, items: seq<Item>)
    requires ReadableItem(item) && NewKey(item, items) && Readable(items)
    ensures Readable([item] + items) && Entries([item] + items) == EntryOf(item) + Entries(items)
  {
    assert ([item] + items)[1..] == items;
  }

  /** Whatever mapping is written, reading the file gives it back, order of keys included. */
  lemma {:induction false} RoundTrip(es: seq<Entry>)
    requires Printable(es)
    ensures Parse(Render(es)) == Success(es)
  {
    AllSpeltMeans(es);
    ReadsMeaning(AllSpelt(es));
  }

  // --- what is accepted ----------------------------------------------------

  /** What a line says can be written. */
  predicate Says(line: Line) {
    line.Keyed? ==> IsKey(line.key) && (line.value.Success? ==> PrintableValue(line.value.value))
  }

  lemma {:induction false} ScalarPrintable(text: string)
    requires text != "" && InLine(text) && !IsSpace(text[0]) && !IsSpace(text[|text| - 1])
    ensures Scalar(text).Success? ==> PrintableValue(Scalar(text).value)
  {
    if Scalar(text).Success? && Scalar(text).value.Str? {
      var s := Scalar(text).value.s;
      if IsQuote(text[0]) {
        assert forall c :: c in s ==> c in text;
      } else {
        assert IsPlain(text);
      }
    }
  }

  lemma {:induction false} StripInLine(s: string)
    requires InLine(s)
    ensures InLine(Strip(s))
    ensures Strip(s) != "" ==> !IsSpace(Strip(s)[0]) && !IsSpace(Strip(s)[|Strip(s)| - 1])
  {
    var i, j := StripCuts(s);
  }

  lemma {:induction false} ReadLineSays(line: string)
    requires NoBreak(line)
    ensures Says(ReadLine(line))
  {
    if ReadLine(line).Keyed? {
      StripInLine(line);
      var stripped := Strip(line);
      var key, value := SplitKey(stripped).key, SplitKey(stripped).value;
      assert forall c :: c in value ==> c in stripped;
      StripInLine(value);
      if Strip(value) != "" {
        ScalarPrintable(Strip(value));
      }
    }
  }

  lemma {:induction false} ExtendPrintable(root: seq<Entry>, depth: nat, e: Entry)
    requires Live(root, depth) && Printable(root) && e.key !in Keys(Open(root, depth))
    requires IsKey(e.key) && PrintableValue(e.value)
    ensures Printable(Extend(root, depth, [e]))
  {
    if depth == 0 {
      assert forall i :: 0 <= i < |root| ==> root[i].key in Keys(root);
    } else {
      ExtendPrintable(root[|root| - 1].value.entries, depth - 1, e);
    }
  }

  lemma {:induction false} StepPrintable(st: State, line: Line)
    requires Live(st.root, st.depth) && Printable(st.root) && ReadsShell(line) && Says(line)
    ensures Step(st, line).Success? ==> Printable(Step(st, line).value.root)
  {
    if line.Keyed? && Step(st, line).Success? {
      LiveBelow(st.root, st.depth, line.indent / 2);
      ExtendPrintable(st.root, line.indent / 2, Entry(line.key, line.value.value));
    }
  }

  lemma {:induction false} RunPrintable(st: State, lines: seq<Line>, number: nat)
    requires Live(st.root, st.depth) && Printable(st.root)
    requires forall line :: line in lines ==> ReadsShell(line) && Says(line)
    ensures Run(st, lines, number).Success? ==> Printable(Run(st, lines, number).value.root)
    decreases |lines|
  {
    if lines != [] && Step(st, lines[0]).Success? {
      StepPrintable(st, lines[0]);
      RunPrintable(Step(st, lines[0]).value, lines[1..], number + 1);
    }
  }

  /** Whatever text is accepted, no key is given twice in one mapping, and writing the mapping anew and reading
      it again changes nothing. */
  lemma {:induction false} AcceptedAgain(text: string)
    ensures Parse(text).Success? ==>
      Printable(Parse(text).value) && Parse(Render(Parse(text).value)) == Parse(text)
  {
    var lines := SplitLines(text);
    var ends := SplitLinesCover(text);
    forall i | 0 <= i < |lines| ensures Says(ReadLine(lines[i])) {
      ReadLineSays(lines[i]);
    }
    RunPrintable(State([], 0), ReadLines(lines), 1);
    if Parse(text).Success? {
      RoundTrip(Parse(text).value);
    }
  }

  // --- what is refused -----------------------------------------------------

  /** The line names an open mapping by its indentation, with spaces alone. */
  ghost predicate Placed(line: string, open: nat) {
    Significant(line) && '\t' !in line && exists depth: nat :: depth <= open && IndentOf(line) == 2 * depth
  }

  /** The mapping open at `depth` has the key. */
  ghost predicate Taken(root: seq<Entry>, depth: nat, key: string) {
    Live(root, depth) && exists i :: 0 <= i < |Open(root, depth)| && Open(root, depth)[i].key == key
  }

  ghost predicate Misquoted(s: string) {
    s != "" && IsQuote(s[0]) && forall text :: IsQuoted(s[0], text) ==> s != [s[0]] + text + [s[0]]
  }

  ghost predicate Forbidden(s: string) {
    s != "" && !IsQuote(s[0]) && exists c :: c in s && c in FORBIDDEN
  }

  /** What is wrong with a line, after lines that mean `root` and leave `open` mappings open below it. */
  ghost predicate Wrong(line: string, root: seq<Entry>, open: nat, reason: Reason) {
    match reason
    case Tabs => Significant(line) && '\t' in line
    case Indentation => Significant(line) && '\t' !in line && !Placed(line, open)
    case NotAKey => Placed(line, open) && forall key, value :: !Gives(Strip(line), key, value)
    case DuplicateKey =>
      Placed(line, open) && exists key, value :: Gives(Strip(line), key, value) && Taken(root, IndentOf(line) / 2, key)
    case Quoting => exists key, value :: GivesNew(line, root, open, key, value) && Misquoted(Strip(value))
    case Unsupported => exists key, value :: GivesNew(line, root, open, key, value) && Forbidden(Strip(value))
  }

  ghost predicate GivesNew(line: string, root: seq<Entry>, open: nat, key: string, value: string) {
    Placed(line, open) && Gives(Strip(line), key, value) && !Taken(root, IndentOf(line) / 2, key)
  }

  lemma {:induction false} MisquotedExactly(s: string)
    requires s != "" && IsQuote(s[0])
    ensures Scalar(s) == Failure(Quoting) <==> Misquoted(s)
    ensures Scalar(s).Failure? ==> Scalar(s) == Failure(Quoting)
  {
    var inner := if |s| < 2 then "" else s[1..|s| - 1];
    if |s| >= 2 && s[|s| - 1] == s[0] {
      assert s == [s[0]] + inner + [s[0]];
    }
    forall text | IsQuoted(s[0], text) && s == [s[0]] + text + [s[0]] ensures Scalar(s).Success? {
      assert inner == text;
    }
  }

  lemma {:induction false} ValueWrong(value: string, reason: Reason)
    ensures ReadValue(value) == Failure(reason) <==>
      (reason == Quoting && Misquoted(Strip(value))) || (reason == Unsupported && Forbidden(Strip(value)))
  {
    var s := Strip(value);
    if s != "" && IsQuote(s[0]) {
      MisquotedExactly(s);
    }
  }

  lemma {:induction false} PlacedExactly(line: string, open: nat)
    requires Significant(line) && '\t' !in line
    ensures Placed(line, open) <==> Reopens(open, IndentOf(line))
  {
    if Reopens(open, IndentOf(line)) {
      assert IndentOf(line) == 2 * (IndentOf(line) / 2);
    }
  }

  lemma {:induction false} StepPair(st: State, line: string, key: string, value: string, reason: Reason)
    requires Live(st.root, st.depth) && Placed(line, st.depth)
    requires SplitKey(Strip(line)) == Parts(key, value)
    ensures Step(st, ReadLine(line)) == Failure(reason) <==> Wrong(line, st.root, st.depth, reason)
  {
    var stripped, depth := Strip(line), IndentOf(line) / 2;
    PlacedExactly(line, st.depth);
    LiveBelow(st.root, st.depth, depth);
    forall k, v ensures Gives(stripped, k, v) <==> k == key && v == value {
      SplitKeyExactly(stripped, k, v);
    }
    assert Gives(stripped, key, value);
    assert Taken(st.root, depth, key) <==> key in Keys(Open(st.root, depth));
    ValueWrong(value, reason);
    assert !Taken(st.root, depth, key) ==> GivesNew(line, st.root, st.depth, key, value);
  }

  /** One line is refused exactly for what is wrong with it. */
  lemma {:induction false} StepWrong(st: State, line: string, reason: Reason)
    requires Live(st.root, st.depth)
    ensures Step(st, ReadLine(line)) == Failure(reason) <==> Wrong(line, st.root, st.depth, reason)
  {
    if Significant(line) && '\t' !in line {
      PlacedExactly(line, st.depth);
      match SplitKey(Strip(line)) {
        case NoParts =>
          forall key, value ensures !Gives(Strip(line), key, value) {
            SplitKeyExactly(Strip(line), key, value);
          }
        case Parts(key, value) =>
          if Placed(line, st.depth) {
            StepPair(st, line, key, value, reason);
          }
      }
    }
  }

  lemma {:induction false} RefusesFrom(st: State, lines: seq<Line>, number: nat)
    requires Live(st.root, st.depth) && forall line :: line in lines ==> ReadsShell(line)
    ensures Run(st, lines, number).Failure? ==> Run(st, lines, number).error.line >= number
    decreases |lines|
  {
    if lines != [] && Step(st, lines[0]).Success? {
      RefusesFrom(Step(st, lines[0]).value, lines[1..], number + 1);
    }
  }

  lemma {:induction false} FirstRefuses(st: State, line: string, rest: seq<string>, number: nat, reason: Reason)
    requires Live(st.root, st.depth)
    ensures Run(st, ReadLines([line] + rest), number) == Failure(Refusal(number, reason))
       <==> Step(st, ReadLine(line)) == Failure(reason)
  {
    var lines := [line] + rest;
    assert lines[0] == line && lines[1..] == rest && ReadLines(lines)[1..] == ReadLines(rest);
    var step := Step(st, ReadLine(line));
    if step.Success? {
      RefusesFrom(step.value, ReadLines(rest), number + 1);
    }
  }

  /** After lines that are read, the reader goes on from what they mean. */
  lemma {:induction false} RunAfter(lines: seq<string>, mid: State, tail: seq<string>)
    requires forall line :: line in lines + tail ==> NoBreak(line)
    requires Live(mid.root, mid.depth) && Run(State([], 0), ReadLines(lines), 1) == Success(mid)
    ensures Run(State([], 0), ReadLines(SplitLines(Unlines(lines + tail))), 1)
         == Run(mid, ReadLines(tail), |lines| + 1)
  {
    SplitUnlines(lines + tail);
    ReadLinesJoin(lines, tail);
    RunJoin(State([], 0), ReadLines(lines + tail), ReadLines(lines), ReadLines(tail), 1, mid);
  }

  lemma {:induction false} RefusedAfter(lines: seq<string>, mid: State, line: string, rest: seq<string>, reason: Reason)
    requires forall other :: other in lines + ([line] + rest) ==> NoBreak(other)
    requires Live(mid.root, mid.depth) && Run(State([], 0), ReadLines(lines), 1) == Success(mid)
    ensures Parse(Unlines(lines + ([line] + rest))) == Failure(Refusal(|lines| + 1, reason))
       <==> Wrong(line, mid.root, mid.depth, reason)
  {
    RunAfter(lines, mid, [line] + rest);
    StepWrong(mid, line, reason);
    FirstRefuses(mid, line, rest, |lines| + 1, reason);
  }

  /** After any lines that are read, the next one is refused, by its number and for a reason, exactly when that is
      what is wrong with it, whatever follows. */
  lemma {:induction false} RefusedExactly(items: seq<Item>, line: string, rest: seq<string>, reason: Reason)
    requires Readable(items) && NoBreak(line) && forall other :: other in rest ==> NoBreak(other)
    ensures Parse(Unlines(Lines(items, 0) + ([line] + rest)))
         == Failure(Refusal(|Lines(items, 0)| + 1, reason))
       <==> Wrong(line, Entries(items), Opened(0, 0, items), reason)
  {
    ReadWrittenLines(items, 0);
    var mid := RunWritten(items);
    RefusedAfter(Lines(items, 0), mid, line, rest, reason);
  }
}
