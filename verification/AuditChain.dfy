/** The hash chain of one audit stream: sealing an entry onto its head, and verifying a stored stream
    (crates/fabric-control-plane/src/audit_trail/entry.rs and verify.rs). */
module AuditChain {
  import opened Results

  const MAX_SEQUENCE: nat := 0xFFFF_FFFF_FFFF_FFFF
  const MAX_ENTRY_BYTES: nat := 4096

  type Sequence = n: nat | n <= MAX_SEQUENCE

  type Hash = nat

  const GENESIS: Hash := 0

  datatype Record = Record(stream: string, body: string)

  /** Everything an entry's hash is taken over. */
  datatype Content = Content(sequence: Sequence, at: nat, previous: Hash, record: Record)

  datatype Entry = Entry(content: Content, hash: Hash)

  datatype Head = Head(sequence: Sequence, hash: Hash)

  /** SHA-256 of the serialised content. */
  type Hashing = Content -> Hash

  /** The length of an entry's line. */
  type Sizing = Entry -> nat

  datatype AuditError = EntryTooLarge(size: nat) | Unavailable | Malformed | Broken(broken: ChainBreak)

  datatype ChainBreak =
    | ForeignEntry(sequence: Sequence)
    | OutOfOrder(expected: Sequence, found: Sequence)
    | Missing(expected: Sequence, found: Sequence)
    | BrokenLink(sequence: Sequence)
    | Tampered(sequence: Sequence)
    | Truncated(anchor: Head, last: Sequence)
    | AnchorMismatch(anchor: Head)

  function HeadOf(entry: Entry): Head { Head(entry.content.sequence, entry.hash) }

  /** `AuditEntry::seal`. */
  function Seal(hash: Hashing, size: Sizing, head: Option<Head>, at: nat, record: Record): Result<Entry, AuditError> {
    if head.Some? && head.value.sequence == MAX_SEQUENCE then Failure(Unavailable)
    else
      var content := match head
        case None => Content(1, at, GENESIS, record)
        case Some(h) => Content(h.sequence + 1, at, h.hash, record);
      var entry := Entry(content, hash(content));
      if size(entry) > MAX_ENTRY_BYTES then Failure(EntryTooLarge(size(entry))) else Success(entry)
  }

  /** The head an entry says it was sealed onto. */
  function SealedOn(entry: Entry): Option<Head> {
    if entry.content.sequence <= 1 then None else Some(Head(entry.content.sequence - 1, entry.content.previous))
  }

  // --- chains --------------------------------------------------------------

  /** The sequence the entry at index `i` should carry; the counter saturates. */
  function Position(i: nat): Sequence { if i < MAX_SEQUENCE then i + 1 else MAX_SEQUENCE }

  function Previous(entries: seq<Entry>, i: nat): Hash
    requires i <= |entries|
  {
    if i == 0 then GENESIS else entries[i - 1].hash
  }

  predicate Linked(hash: Hashing, stream: string, entries: seq<Entry>, i: nat)
    requires i < |entries|
  {
    var entry := entries[i];
    && entry.content.record.stream == stream
    && entry.content.sequence == Position(i)
    && entry.content.previous == Previous(entries, i)
    && entry.hash == hash(entry.content)
  }

  /** The entries of a stream as they were sealed, from the first. */
  ghost predicate Chained(hash: Hashing, stream: string, entries: seq<Entry>) {
    forall i :: 0 <= i < |entries| ==> Linked(hash, stream, entries, i)
  }

  function LastHead(entries: seq<Entry>): Option<Head> {
    if entries == [] then None else Some(HeadOf(entries[|entries| - 1]))
  }

  /** The anchored entry is where it should be. */
  predicate Names(entries: seq<Entry>, anchor: Head) {
    0 < anchor.sequence <= |entries| && HeadOf(entries[anchor.sequence - 1]) == anchor
  }

  // --- verification --------------------------------------------------------

  /** What is wrong with the entry at `i`, when all before it are right. */
  predicate Explains(hash: Hashing, stream: string, entries: seq<Entry>, i: nat, error: ChainBreak)
    requires i < |entries|
  {
    var found, expected := entries[i].content, Position(i);
    match error
    case ForeignEntry(sequence) => found.record.stream != stream && sequence == found.sequence
    case OutOfOrder(e, f) =>
      && found.record.stream == stream && e == expected != found.sequence == f
      && exists j :: i < j < |entries| && entries[j].content.sequence == expected
    case Missing(e, f) =>
      && found.record.stream == stream && e == expected != found.sequence == f
      && forall j :: i < j < |entries| ==> entries[j].content.sequence != expected
    case BrokenLink(sequence) =>
      found.record.stream == stream && sequence == expected == found.sequence && found.previous != Previous(entries, i)
    case Tampered(sequence) =>
      && found.record.stream == stream && sequence == expected == found.sequence
      && found.previous == Previous(entries, i)
      && entries[i].hash != hash(found)
    case _ => false
  }

  /** The first entry that is wrong, and how; or how a chain misses its anchor. */
  ghost predicate Diagnosed(hash: Hashing, stream: string, entries: seq<Entry>, anchor: Option<Head>, error: ChainBreak)
  {
    if Chained(hash, stream, entries) then
      && anchor.Some? && !Names(entries, anchor.value)
      && error == if 0 < anchor.value.sequence <= |entries| then AnchorMismatch(anchor.value)
                  else Truncated(anchor.value, if entries == [] then 0 else entries[|entries| - 1].content.sequence)
    else
      exists i :: 0 <= i < |entries| && Chained(hash, stream, entries[..i]) && Explains(hash, stream, entries, i, error)
  }

  /** `verify`'s loop, up to the anchor. */
  method VerifyLinks(hash: Hashing, stream: string, entries: seq<Entry>) returns (broken: Option<ChainBreak>)
    ensures broken.None? <==> Chained(hash, stream, entries)
    ensures broken.Some? ==> Diagnosed(hash, stream, entries, None, broken.value)
  {
    var previous, expected := GENESIS, 1;
    for position := 0 to |entries|
      invariant previous == Previous(entries, position) && expected == Position(position)
      invariant forall i :: 0 <= i < position ==> Linked(hash, stream, entries, i)
    {
      var entry := entries[position];
      broken := VerifyLink(hash, stream, entries, position, previous, expected);
      if broken.Some? {
        ChainedUpTo(hash, stream, entries, position);
        return;
      }
      previous := entry.hash;
      expected := if expected < MAX_SEQUENCE then expected + 1 else expected;
    }
    broken := None;
  }

  /** The checks on one entry, in their order. */
  method VerifyLink(hash: Hashing, stream: string, entries: seq<Entry>, position: nat, previous: Hash,
                    expected: Sequence)
    returns (broken: Option<ChainBreak>)
    requires position < |entries| && previous == Previous(entries, position) && expected == Position(position)
    ensures broken.None? <==> Linked(hash, stream, entries, position)
    ensures broken.Some? ==> Explains(hash, stream, entries, position, broken.value)
  {
    var entry := entries[position];
    if entry.content.record.stream != stream {
      return Some(ForeignEntry(entry.content.sequence));
    }
    if entry.content.sequence != expected {
      var later := exists j :: position < j < |entries| && entries[j].content.sequence == expected;
      var found := entry.content.sequence;
      return Some(if later then OutOfOrder(expected, found) else Missing(expected, found));
    }
    if entry.content.previous != previous {
      return Some(BrokenLink(expected));
    }
    if hash(entry.content) != entry.hash {
      return Some(Tampered(expected));
    }
    return None;
  }

  lemma {:induction false} ChainedUpTo(hash: Hashing, stream: string, entries: seq<Entry>, n: nat)
    requires n <= |entries| && forall i :: 0 <= i < n ==> Linked(hash, stream, entries, i)
    ensures Chained(hash, stream, entries[..n])
  {
    forall i | 0 <= i < n ensures Linked(hash, stream, entries[..n], i) {
      assert Linked(hash, stream, entries, i);
    }
  }

  /** `verify`: it accepts exactly the chains that hold their anchor, says where they end, and otherwise
      reports the first thing that is wrong. */
  method Verify(hash: Hashing, stream: string, entries: seq<Entry>, anchor: Option<Head>)
    returns (r: Result<Option<Head>, ChainBreak>)
    ensures r.Success? <==> Chained(hash, stream, entries) && (anchor.Some? ==> Names(entries, anchor.value))
    ensures r.Success? ==> r.value == LastHead(entries)
    ensures r.Failure? ==> Diagnosed(hash, stream, entries, anchor, r.error)
  {
    var broken := VerifyLinks(hash, stream, entries);
    if broken.Some? {
      return Failure(broken.value);
    }
    if anchor.Some? {
      var found := FindSequence(entries, anchor.value.sequence);
      FoundAt(hash, stream, entries, anchor.value.sequence);
      if found.None? {
        return Failure(Truncated(anchor.value, if entries == [] then 0 else entries[|entries| - 1].content.sequence));
      }
      if found.value.hash != anchor.value.hash {
        return Failure(AnchorMismatch(anchor.value));
      }
    }
    r := Success(LastHead(entries));
  }

  /** The first entry with a sequence. */
  function FindSequence(entries: seq<Entry>, sequence: Sequence): Option<Entry> {
    if entries == [] then None
    else if entries[0].content.sequence == sequence then Some(entries[0])
    else FindSequence(entries[1..], sequence)
  }

  lemma {:induction false} FindFrom(entries: seq<Entry>, i: nat, sequence: Sequence)
    requires i <= |entries|
    requires forall k :: 0 <= k < i ==> entries[k].content.sequence != sequence
    ensures i < |entries| && entries[i].content.sequence == sequence ==>
      FindSequence(entries, sequence) == Some(entries[i])
    ensures i == |entries| ==> FindSequence(entries, sequence) == None
  {
    if i == 0 {
    } else {
      FindFrom(entries[1..], i - 1, sequence);
    }
  }

  lemma {:induction false} FoundAt(hash: Hashing, stream: string, entries: seq<Entry>, sequence: Sequence)
    requires Chained(hash, stream, entries)
    ensures FindSequence(entries, sequence) == if 0 < sequence <= |entries| then Some(entries[sequence - 1]) else None
    ensures 0 < sequence <= |entries| ==> entries[sequence - 1].content.sequence == sequence
  {
    var i := if 0 < sequence <= |entries| then sequence - 1 else |entries|;
    forall k | 0 <= k < i ensures entries[k].content.sequence != sequence {
      assert Linked(hash, stream, entries, k);
    }
    if i < |entries| {
      assert Linked(hash, stream, entries, i);
    }
    FindFrom(entries, i, sequence);
  }

  // --- what a chain proves -------------------------------------------------

  /** Sealing onto a chain's last head extends the chain, and is refused only at the end of the numbers or
      for an entry over the limit. */
  lemma {:induction false} SealExtends(hash: Hashing, size: Sizing, entries: seq<Entry>, at: nat, record: Record)
    requires Chained(hash, record.stream, entries) && |entries| <= MAX_SEQUENCE
    ensures var r := Seal(hash, size, LastHead(entries), at, record);
      match r
      case Success(entry) =>
        && |entries| < MAX_SEQUENCE && size(entry) <= MAX_ENTRY_BYTES
        && entry.content.at == at && entry.content.record == record
        && SealedOn(entry) == LastHead(entries)
        && Chained(hash, record.stream, entries + [entry])
      case Failure(error) =>
        if |entries| == MAX_SEQUENCE then error == Unavailable else error.EntryTooLarge? && error.size > MAX_ENTRY_BYTES
  {
    var r := Seal(hash, size, LastHead(entries), at, record);
    if entries != [] {
      assert Linked(hash, record.stream, entries, |entries| - 1);
    }
    if r.Success? {
      var longer := entries + [r.value];
      forall i | 0 <= i < |longer| ensures Linked(hash, record.stream, longer, i) {
        assert i < |entries| ==> Linked(hash, record.stream, entries, i);
      }
    }
  }

  /** `entry` is how the chain goes on with a record. */
  ghost predicate IsNext(hash: Hashing, entries: seq<Entry>, at: nat, record: Record, entry: Entry) {
    && |entries| < MAX_SEQUENCE && Chained(hash, record.stream, entries + [entry])
    && entry.content.at == at && entry.content.record == record
  }

  /** There is one way for a chain to go on; sealing finds it, and refuses it only if it is over the limit. */
  lemma {:induction false} SealsNext(hash: Hashing, size: Sizing, entries: seq<Entry>, at: nat, record: Record,
                                     entry: Entry)
    requires IsNext(hash, entries, at, record, entry)
    ensures Seal(hash, size, LastHead(entries), at, record)
         == if size(entry) <= MAX_ENTRY_BYTES then Success(entry) else Failure(EntryTooLarge(size(entry)))
  {
    var longer := entries + [entry];
    assert Linked(hash, record.stream, longer, |entries|);
    if entries != [] {
      assert Linked(hash, record.stream, longer, |entries| - 1);
    }
  }

  /** No two entries of a chain were sealed onto the same head. */
  lemma {:induction false} NoFork(hash: Hashing, stream: string, entries: seq<Entry>, i: nat, j: nat)
    requires Chained(hash, stream, entries) && |entries| <= MAX_SEQUENCE
    requires i < |entries| && j < |entries| && SealedOn(entries[i]) == SealedOn(entries[j])
    ensures i == j
  {
    assert Linked(hash, stream, entries, i) && Linked(hash, stream, entries, j);
  }

  /** No two different contents among these entries have one hash. */
  ghost predicate NoCollision(hash: Hashing, a: seq<Entry>, b: seq<Entry>) {
    forall x, y :: x in a && y in b && hash(x.content) == hash(y.content) ==> x.content == y.content
  }

  lemma {:induction false} SameBack(hash: Hashing, stream: string, a: seq<Entry>, b: seq<Entry>, k: nat)
    requires Chained(hash, stream, a) && Chained(hash, stream, b) && NoCollision(hash, a, b)
    requires k < |a| && k < |b| && a[k].hash == b[k].hash
    ensures a[..k + 1] == b[..k + 1]
  {
    assert Linked(hash, stream, a, k) && Linked(hash, stream, b, k);
    assert a[k] in a && b[k] in b;
    if k == 0 {
    } else {
      SameBack(hash, stream, a, b, k - 1);
    }
    assert a[..k + 1] == a[..k] + [a[k]] && b[..k + 1] == b[..k] + [b[k]];
  }

  /** An anchor fixes everything up to it: whatever verifies against the head a chain once had still begins
      with that chain, so a changed, dropped or reordered entry is always noticed. */
  lemma {:induction false} AnchorFixesHistory(hash: Hashing, stream: string, sealed: seq<Entry>, stored: seq<Entry>)
    requires Chained(hash, stream, sealed) && 0 < |sealed| <= MAX_SEQUENCE
    requires Chained(hash, stream, stored) && Names(stored, LastHead(sealed).value)
    requires NoCollision(hash, sealed, stored)
    ensures sealed <= stored
  {
    assert Linked(hash, stream, sealed, |sealed| - 1);
    SameBack(hash, stream, sealed, stored, |sealed| - 1);
  }
}
