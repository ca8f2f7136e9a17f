/** The reader floor a published shape may not change under (scripts/check_reader_floor.py). */
module ReaderFloor {
  import opened Results
  import opened Json
  import opened Ordering
  import opened Sorting
  import opened CompatibilityFile
  import opened WrittenMappings

  /** What the published shape is, and the reader contract it was recorded at. */
  datatype Lock = Lock(floor: nat, shapes: map<string, seq<string>>)

  predicate IsLines(document: Json) {
    document.List? && forall i :: 0 <= i < |document.items| ==> document.items[i].Text?
  }

  function Lines(document: Json): (lines: seq<string>)
    requires IsLines(document)
    ensures |lines| == |document.items| && forall i :: 0 <= i < |lines| ==> Json.Text(lines[i]) == document.items[i]
  {
    seq(|document.items|, i requires 0 <= i < |document.items| => document.items[i].s)
  }

  /** `parse_lock`; None is a text that is not JSON. A flag is no floor. */
  function ParseLock(text: Option<Json>): Option<Lock> {
    match text
    case None => None
    case Some(lock) =>
      var floor, shapes := Get(lock, "minimumReaderContract"), Get(lock, "shapes");
      if !floor.Int? || floor.n < 1 then None
      else if !shapes.Object? || exists d :: d in shapes.fields && !IsLines(shapes.fields[d]) then None
      else Some(Lock(floor.n, map d | d in shapes.fields :: Lines(shapes.fields[d])))
  }

  /** A recorded document says exactly these lines. */
  predicate IsShape(document: Json, lines: seq<string>) {
    && document.List? && |document.items| == |lines|
    && forall i :: 0 <= i < |lines| ==> document.items[i] == Json.Text(lines[i])
  }

  /** A lock is read exactly where its floor is a positive integer and its shapes are lists of text, and what is read
      is that floor and every line recorded, in order. */
  lemma {:induction false} ParseLockExactly(text: Option<Json>, lock: Lock)
    ensures ParseLock(text) == Some(lock) <==>
      && text.Some? && Get(text.value, "minimumReaderContract") == Int(lock.floor) && lock.floor >= 1
      && var shapes := Get(text.value, "shapes");
      && shapes.Object? && shapes.fields.Keys == lock.shapes.Keys
      && forall d :: d in lock.shapes ==> IsShape(shapes.fields[d], lock.shapes[d])
  {
    if text.Some? && Get(text.value, "shapes").Object? {
      var shapes := Get(text.value, "shapes");
      forall d, lines: seq<string> | d in shapes.fields
        ensures IsShape(shapes.fields[d], lines) <==> IsLines(shapes.fields[d]) && Lines(shapes.fields[d]) == lines
      {
        ShapeIsLines(shapes.fields[d], lines);
      }
      if ParseLock(text).Some? {
        var read := ParseLock(text).value.shapes;
        assert read.Keys == shapes.fields.Keys && forall d :: d in read ==> IsShape(shapes.fields[d], read[d]);
        assert read == lock.shapes <==>
          read.Keys == lock.shapes.Keys && forall d :: d in lock.shapes ==> read[d] == lock.shapes[d];
      }
    }
  }

  lemma {:induction false} ShapeIsLines(document: Json, lines: seq<string>)
    ensures IsShape(document, lines) <==> IsLines(document) && Lines(document) == lines
  {
  }

  // --- shapes --------------------------------------------------------------

  /** The lines a shape gives a document; a missing document has none. */
  function LinesOf(shapes: map<string, seq<string>>, document: string): set<string> {
    if document in shapes then set line | line in shapes[document] else {}
  }

  predicate Publishes(shapes: map<string, seq<string>>, document: string, line: string) {
    document in shapes && line in shapes[document]
  }

  /** The same lines in every document, whatever their order and however often. */
  ghost predicate SameShape(before: map<string, seq<string>>, after: map<string, seq<string>>) {
    forall document, line :: Publishes(before, document, line) <==> Publishes(after, document, line)
  }

  datatype Change = Removed(document: string, line: string) | Added(document: string, line: string)

  function Changes(document: string, lines: seq<string>, added: bool): (changes: seq<Change>)
    ensures forall d, l :: Removed(d, l) in changes <==> !added && d == document && l in lines
    ensures forall d, l :: Added(d, l) in changes <==> added && d == document && l in lines
  {
    if lines == [] then []
    else
      [if added then Added(document, lines[0]) else Removed(document, lines[0])]
      + Changes(document, lines[1..], added)
  }

  /** `difference`: every line removed and every line added, and nothing exactly when the shape is the same. */
  method Difference(before: map<string, seq<string>>, after: map<string, seq<string>>) returns (changes: seq<Change>)
    ensures forall d, l :: Removed(d, l) in changes <==> Publishes(before, d, l) && !Publishes(after, d, l)
    ensures forall d, l :: Added(d, l) in changes <==> Publishes(after, d, l) && !Publishes(before, d, l)
    ensures changes == [] <==> SameShape(before, after)
  {
    changes := [];
    var documents := SortedSet(before.Keys + after.Keys);
    for i := 0 to |documents|
      invariant forall d, l :: Removed(d, l) in changes <==>
        d in documents[..i] && l in LinesOf(before, d) - LinesOf(after, d)
      invariant forall d, l :: Added(d, l) in changes <==>
        d in documents[..i] && l in LinesOf(after, d) - LinesOf(before, d)
    {
      var document := documents[i];
      var was, now := LinesOf(before, document), LinesOf(after, document);
      var removed := SortedSet(was - now);
      var added := SortedSet(now - was);
      assert documents[..i + 1] == documents[..i] + [document];
      changes := changes + Changes(document, removed, false) + Changes(document, added, true);
    }
    assert documents[..|documents|] == documents;
    NoChanges(before, after, changes);
  }

  lemma {:induction false} NoChanges(before: map<string, seq<string>>, after: map<string, seq<string>>,
                                     changes: seq<Change>)
    requires forall d, l :: Removed(d, l) in changes <==> Publishes(before, d, l) && !Publishes(after, d, l)
    requires forall d, l :: Added(d, l) in changes <==> Publishes(after, d, l) && !Publishes(before, d, l)
    ensures changes == [] <==> SameShape(before, after)
  {
    if changes == [] {
      forall d, l ensures Publishes(before, d, l) <==> Publishes(after, d, l) {
        assert Removed(d, l) !in changes && Added(d, l) !in changes;
      }
    } else {
      var change := changes[0];
      var document, line := change.document, change.line;
      assert change in changes && (change == Removed(document, line) || change == Added(document, line));
      assert Publishes(before, document, line) != Publishes(after, document, line);
    }
  }

  // --- commits -------------------------------------------------------------

  /** A file at a commit. Only a listing that succeeded makes it absent. */
  datatype Blob<T> = Unreadable | Absent | Found(value: T)

  /** What the check reads of a commit: the values the constant's declaration is found with, compatibility.yaml,
      whether its other contracts agree with the source and are well formed, and the lock's parsed text. */
  datatype Commit = Commit(
    declared: Blob<seq<nat>>,
    compatibility: Blob<string>,
    othersAgree: bool,
    lock: Blob<Option<Json>>)

  datatype Reason =
    | LockMissing | LockMalformed | ContractsDisagree | LockNotRegenerated
    | SourceUnreadable | SourceUndeclared | CompatibilityUnreadable | NothingStated | BaseDisagrees
    | FloorFell | BaseLockUnreadable | BaseLockMalformed | BaseLockStale | ShapeChanged

  datatype Verdict = Adopted | Unchanged | Raised

  function Lookup(value: Option<Value>, key: string): Option<Value> {
    if value.Some? && value.value.Sub? then Find(value.value.entries, key) else None
  }

  function Find(es: seq<Entry>, key: string): Option<Value> {
    if es == [] then None else if es[0].key == key then Some(es[0].value) else Find(es[1..], key)
  }

  /** `parse_subset(text)["spec"]["publication"]["minimumReaderContract"]`; None for whatever is raised. */
  function StatedFloor(text: string): Option<Value> {
    match Parse(text)
    case Failure(_) => None
    case Success(es) =>
      Lookup(Lookup(Lookup(Some(Sub(es)), "spec"), "publication"), "minimumReaderContract")
  }

  lemma {:induction false} FindExactly(es: seq<Entry>, key: string, value: Value)
    requires forall i, j :: 0 <= i < j < |es| ==> es[i].key != es[j].key
    ensures Find(es, key) == Some(value) <==> Entry(key, value) in es
  {
    if es == [] {
    } else {
      FindExactly(es[1..], key, value);
      assert es == [es[0]] + es[1..];
      if Entry(key, value) in es {
        var i :| 0 <= i < |es| && es[i] == Entry(key, value);
        assert i > 0 ==> es[0].key != key;
      }
    }
  }

  /** A file states a floor exactly where it is accepted and nests it so. */
  lemma {:induction false} StatedExactly(text: string, value: Value)
    ensures StatedFloor(text) == Some(value) <==>
      Parse(text).Success? && exists spec, publication ::
        && Entry("spec", Sub(spec)) in Parse(text).value && Entry("publication", Sub(publication)) in spec
        && Entry("minimumReaderContract", value) in publication
  {
    AcceptedAgain(text);
    if Parse(text).Success? {
      var es := Parse(text).value;
      forall spec ensures Find(es, "spec") == Some(Sub(spec)) <==> Entry("spec", Sub(spec)) in es {
        FindExactly(es, "spec", Sub(spec));
      }
      forall spec, publication | Entry("spec", Sub(spec)) in es
        ensures Find(spec, "publication") == Some(Sub(publication)) <==> Entry("publication", Sub(publication)) in spec
        ensures Entry("publication", Sub(publication)) in spec ==>
          (Find(publication, "minimumReaderContract") == Some(value) <==>
           Entry("minimumReaderContract", value) in publication)
      {
        PrintableWithin(es, "spec", spec);
        FindExactly(spec, "publication", Sub(publication));
        if Entry("publication", Sub(publication)) in spec {
          PrintableWithin(spec, "publication", publication);
          FindExactly(publication, "minimumReaderContract", value);
        }
      }
    }
  }

  lemma {:induction false} PrintableWithin(es: seq<Entry>, key: string, entries: seq<Entry>)
    requires Printable(es) && Entry(key, Sub(entries)) in es
    ensures Printable(entries)
  {
    var i :| 0 <= i < |es| && es[i] == Entry(key, Sub(entries));
    assert PrintableValue(es[i].value);
  }

  /** `base_source_floor`. */
  function BaseSourceFloor(c: Commit): Result<nat, Reason> {
    match c.declared
    case Unreadable => Failure(SourceUnreadable)
    case Absent => Failure(SourceUndeclared)
    case Found(matches) =>
      if |matches| != 1 then Failure(SourceUndeclared)
      else
        match c.compatibility
        case Unreadable => Failure(CompatibilityUnreadable)
        case Absent => Failure(NothingStated)
        case Found(text) =>
          match StatedFloor(text)
          case None => Failure(NothingStated)
          case Some(stated) => if stated != Num(matches[0]) then Failure(BaseDisagrees) else Success(matches[0])
  }

  /** `check_contracts` of the checked-out tree: the reader floor, once everything agrees on it. */
  function Contracts(c: Commit): Option<nat> {
    if c.declared.Found? && |c.declared.value| == 1 && c.declared.value[0] >= 1
       && c.compatibility.Found? && StatedFloor(c.compatibility.value) == Some(Num(c.declared.value[0]))
       && c.othersAgree
    then Some(c.declared.value[0]) else None
  }

  predicate DeclaresAndStates(c: Commit, n: nat) {
    && c.declared == Found([n])
    && c.compatibility.Found? && StatedFloor(c.compatibility.value) == Some(Num(n))
  }

  /** The floor of a commit is what its source declares, once, and its compatibility.yaml states. */
  lemma {:induction false} FloorExactly(c: Commit, n: nat)
    ensures BaseSourceFloor(c) == Success(n) <==> DeclaresAndStates(c, n)
    ensures Contracts(c) == Some(n) <==> n >= 1 && DeclaresAndStates(c, n) && c.othersAgree
  {
    if c.declared.Found? && |c.declared.value| == 1 {
      assert c.declared.value == [c.declared.value[0]];
    }
  }

  /** What `check` answers for a tree `head` against the commit `base`. */
  ghost function Checked(base: Commit, head: Commit): Result<Verdict, Reason> {
    if !head.lock.Found? then Failure(LockMissing)
    else if ParseLock(head.lock.value) == None then Failure(LockMalformed)
    else
      var lock := ParseLock(head.lock.value).value;
      if Contracts(head) == None then Failure(ContractsDisagree)
      else if Contracts(head).value != lock.floor then Failure(LockNotRegenerated)
      else
        match BaseSourceFloor(base)
        case Failure(reason) => Failure(reason)
        case Success(sourceFloor) =>
          if lock.floor < sourceFloor then Failure(FloorFell)
          else if base.lock.Unreadable? then Failure(BaseLockUnreadable)
          else if base.lock.Absent? then Success(Adopted)
          else if ParseLock(base.lock.value) == None then Failure(BaseLockMalformed)
          else
            var baseLock := ParseLock(base.lock.value).value;
            if baseLock.floor != sourceFloor then Failure(BaseLockStale)
            else if SameShape(baseLock.shapes, lock.shapes) then Success(Unchanged)
            else if lock.floor == baseLock.floor then Failure(ShapeChanged)
            else Success(Raised)
  }

  /** `check`. */
  method Check(base: Commit, head: Commit) returns (r: Result<Verdict, Reason>)
    ensures r == Checked(base, head)
  {
    if !head.lock.Found? {
      return Failure(LockMissing);
    }
    var lock := ParseLock(head.lock.value);
    if lock == None {
      return Failure(LockMalformed);
    }
    var floor := lock.value.floor;
    var contracts := Contracts(head);
    if contracts == None {
      return Failure(ContractsDisagree);
    }
    if floor != contracts.value {
      return Failure(LockNotRegenerated);
    }
    var sourceFloor := BaseSourceFloor(base);
    if sourceFloor.Failure? {
      return Failure(sourceFloor.error);
    }
    if floor < sourceFloor.value {
      return Failure(FloorFell);
    }
    if base.lock.Unreadable? {
      return Failure(BaseLockUnreadable);
    }
    if base.lock.Absent? {
      return Success(Adopted);
    }
    var baseLock := ParseLock(base.lock.value);
    if baseLock == None {
      return Failure(BaseLockMalformed);
    }
    if baseLock.value.floor != sourceFloor.value {
      return Failure(BaseLockStale);
    }
    var changes := Difference(baseLock.value.shapes, lock.value.shapes);
    if changes == [] {
      return Success(Unchanged);
    }
    if floor == baseLock.value.floor {
      return Failure(ShapeChanged);
    }
    return Success(Raised);
  }

  // --- histories -----------------------------------------------------------

  /** Every commit passed the check against the one before it. */
  ghost predicate Passed(history: seq<Commit>) {
    forall i :: 1 <= i < |history| ==> Checked(history[i - 1], history[i]).Success?
  }

  predicate Locked(c: Commit) {
    c.lock.Found? && ParseLock(c.lock.value).Some?
  }

  /** One passing step: the new commit is locked at its own source's floor, which did not fall; and if the
      old one is locked too and the floors are equal, so are the shapes. */
  lemma {:induction false} StepHolds(base: Commit, head: Commit)
    requires Checked(base, head).Success?
    ensures BaseSourceFloor(base).Success? && BaseSourceFloor(head).Success?
    ensures BaseSourceFloor(base).value <= BaseSourceFloor(head).value
    ensures Locked(head) && ParseLock(head.lock.value).value.floor == BaseSourceFloor(head).value
    ensures base.lock.Absent? || (Locked(base) && ParseLock(base.lock.value).value.floor == BaseSourceFloor(base).value)
    ensures Locked(base) && BaseSourceFloor(base).value == BaseSourceFloor(head).value ==>
      SameShape(ParseLock(base.lock.value).value.shapes, ParseLock(head.lock.value).value.shapes)
  {
  }

  /** A tree passes exactly when its lock, its source and compatibility.yaml name one floor that is not below
      the old commit's, and, against an old lock recorded at that commit's own floor, either publishes the same
      shape or rises. */
  lemma {:induction false} PassesExactly(base: Commit, head: Commit)
    ensures Checked(base, head).Success? <==>
      && Locked(head) && Contracts(head) == Some(ParseLock(head.lock.value).value.floor)
      && BaseSourceFloor(base).Success? && BaseSourceFloor(base).value <= Contracts(head).value
      && (base.lock.Absent? || (
            && Locked(base) && BaseSourceFloor(base) == Success(ParseLock(base.lock.value).value.floor)
            && (SameShape(ParseLock(base.lock.value).value.shapes, ParseLock(head.lock.value).value.shapes)
                || BaseSourceFloor(base).value < Contracts(head).value)))
    ensures Checked(base, head) == Success(Adopted) ==> base.lock.Absent?
    ensures Checked(base, head) == Success(Raised) ==> BaseSourceFloor(base).value < Contracts(head).value
  {
  }

  /** Along a history that passed, the floor never falls, every commit but the first carries a lock, and two
      locked commits with one floor publish one shape, whatever happened in between. */
  lemma {:induction false} FloorNeverFalls(history: seq<Commit>, i: nat, j: nat)
    requires Passed(history) && i < j < |history|
    ensures BaseSourceFloor(history[i]).Success? && BaseSourceFloor(history[j]).Success?
    ensures BaseSourceFloor(history[i]).value <= BaseSourceFloor(history[j]).value
    ensures Locked(history[j])
    ensures ParseLock(history[j].lock.value).value.floor == BaseSourceFloor(history[j]).value
    ensures Locked(history[i]) ==> ParseLock(history[i].lock.value).value.floor == BaseSourceFloor(history[i]).value
    ensures Locked(history[i]) && BaseSourceFloor(history[i]).value == BaseSourceFloor(history[j]).value ==>
      SameShape(ParseLock(history[i].lock.value).value.shapes, ParseLock(history[j].lock.value).value.shapes)
    decreases j - i
  {
    StepHolds(history[j - 1], history[j]);
    if i < j - 1 {
      FloorNeverFalls(history, i, j - 1);
    }
  }
}
