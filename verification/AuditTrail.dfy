/** The local audit trail: a durable hash-chain append under a lock, where any write can fail
    (crates/fabric-control-plane-api/src/local_audit_trail.rs, local_audit_trail/files.rs and open.rs). */
module AuditTrail {
  import opened Results
  import opened AuditChain

  // --- one stream's files --------------------------------------------------

  /** A stream's log and head. `spoiled`: the log holds a line that was not written whole. Of what is there,
      `flushed` lines are on storage and `named` says whether the log's own name is; `survivors` are the head
      files that could be found after a loss of power. */
  datatype Files = Files(created: bool, entries: seq<Entry>, spoiled: bool, flushed: nat, named: bool,
                         head: Option<Head>, survivors: set<Option<Head>>)

  const NO_FILES := Files(false, [], false, 0, false, None, {None})

  /** How many lines cannot be lost. */
  function Durable(f: Files): nat { if f.named then f.flushed else 0 }

  /** No head file that could be found names anything past the last durable line. */
  predicate HeadDurable(f: Files) { forall h :: h in f.survivors && h.Some? ==> h.value.sequence <= Durable(f) }

  function Of(files: map<string, Files>, stream: string): Files {
    if stream in files then files[stream] else NO_FILES
  }

  function HeadFor(heads: map<string, Head>, stream: string): Option<Head> {
    if stream in heads then Some(heads[stream]) else None
  }

  /** What a directory sync makes durable: the log's name, and which head is in place. */
  function SyncedFiles(f: Files): Files { f.(named := f.created, survivors := {f.head}) }

  function Synced(files: map<string, Files>): (r: map<string, Files>)
    ensures forall s :: Of(r, s) == if s in files then SyncedFiles(files[s]) else NO_FILES
  {
    map s | s in files :: SyncedFiles(files[s])
  }

  /** How far `append_line` gets. */
  datatype LineOutcome = NotOpened | NotWritten(torn: bool) | NotFlushed | NotNamed | Appended

  /** How far `write_head` gets. */
  datatype HeadOutcome = NotReplaced | NotSynced | Recorded

  /** What is left of a stream's files after a loss of power. */
  datatype Remains = Remains(created: bool, kept: nat, torn: bool, head: Option<Head>)

  predicate Possible(f: Files, r: Remains) {
    && Durable(f) <= r.kept <= |f.entries|
    && (r.torn ==> r.kept < |f.entries| || f.spoiled)
    && (f.named || r.kept > 0 || r.torn ==> r.created)
    && (r.created ==> f.created)
    && r.head in f.survivors
  }

  function Left(f: Files, r: Remains): Files
    requires Possible(f, r)
  {
    Files(r.created, f.entries[..r.kept], r.torn, r.kept, r.created, r.head, {r.head})
  }

  // --- what holds ----------------------------------------------------------

  /** On storage, running or not: the readable lines are a sealed chain. */
  ghost predicate Stored(hash: Hashing, stream: string, f: Files) {
    && Chained(hash, stream, f.entries) && |f.entries| <= MAX_SEQUENCE
    && f.flushed <= |f.entries|
    && (f.entries != [] || f.spoiled || f.named ==> f.created)
    && f.head in f.survivors
  }

  /** How many lines the head in memory accounts for. */
  function Known(head: Option<Head>): nat { if head.None? then 0 else head.value.sequence }

  /** While running: the head in memory is the head of the last line that was appended, which is the last line
      there is unless the stream is broken; and no head file names an entry past it. */
  ghost predicate Sound(hash: Hashing, stream: string, f: Files, head: Option<Head>, broken: bool) {
    && Stored(hash, stream, f)
    && Known(head) <= |f.entries| && head == LastHead(f.entries[..Known(head)])
    && (if broken then |f.entries| <= Known(head) + (if f.spoiled then 0 else 1)
        else |f.entries| == Known(head) && !f.spoiled && f.named == f.created)
    && forall h :: h in f.survivors && h.Some? ==> Names(f.entries, h.value) && h.value.sequence <= Known(head)
  }

  /** An acknowledged entry is where it was appended, and cannot be lost. */
  predicate Kept(f: Files, entry: Entry) {
    0 < entry.content.sequence <= Durable(f) <= |f.entries| && f.entries[entry.content.sequence - 1] == entry
  }

  // --- one step of one stream ----------------------------------------------

  /** What a directory sync may do to a stream. */
  predicate Steady(f: Files, g: Files) { g == f || g == SyncedFiles(f) }

  lemma {:induction false} SteadyKeeps(hash: Hashing, stream: string, f: Files, g: Files)
    requires Steady(f, g)
    ensures Stored(hash, stream, f) ==> Stored(hash, stream, g)
    ensures forall head, broken :: Sound(hash, stream, f, head, broken) ==> Sound(hash, stream, g, head, broken)
    ensures Stored(hash, stream, f) ==> Durable(f) <= Durable(g)
  {
  }

  /** What an attempt to append a line may do to its stream. */
  predicate Wrote(f: Files, g: Files, entry: Entry, ok: bool) {
    && g.head == f.head && f.head in g.survivors && g.survivors <= f.survivors
    && (f.created ==> g.created) && (g.named || g.spoiled ==> g.created) && Durable(f) <= Durable(g)
    && g.flushed <= |g.entries|
    && (f.spoiled ==> g.spoiled && g.entries == f.entries)
    && if ok then
         && g.created && (f.named == f.created ==> g.named) && g.spoiled == f.spoiled
         && g.entries == (if f.spoiled then f.entries else f.entries + [entry]) && g.flushed == |g.entries|
       else
         g.entries == f.entries || (g.created && g.entries == f.entries + [entry] && !g.spoiled)
  }

  /** What is in the log after the attempt, flushed or not. */
  predicate InLog(f: Files, g: Files, entry: Entry, outcome: LineOutcome) {
    && g.entries == (if outcome.NotOpened? || outcome.NotWritten? || f.spoiled then f.entries else f.entries + [entry])
    && g.spoiled == (f.spoiled || outcome == NotWritten(true))
    && (outcome.NotFlushed? ==> g.flushed == f.flushed)
    && (outcome.NotNamed? ==> g.flushed == |g.entries|)
    && (outcome.NotFlushed? || (outcome.NotNamed? && !f.created) ==> g.named == f.named)
  }

  /** Whether the line is known to have reached storage. */
  predicate Reaches(f: Files, outcome: LineOutcome) {
    outcome.Appended? || (outcome.NotNamed? && f.created)
  }

  /** Appending keeps a stream sound: broken if the line is not known to be durable, extended otherwise. */
  lemma {:induction false} AppendedSound(hash: Hashing, size: Sizing, f: Files, g: Files, head: Option<Head>,
                                         at: nat, record: Record, entry: Entry, ok: bool)
    requires Sound(hash, record.stream, f, head, false)
    requires Seal(hash, size, head, at, record) == Success(entry) && Wrote(f, g, entry, ok)
    ensures Sound(hash, record.stream, g, if ok then Some(HeadOf(entry)) else head, !ok)
    ensures SealedOn(entry) == LastHead(f.entries)
  {
    assert f.entries[..Known(head)] == f.entries;
    SealExtends(hash, size, f.entries, at, record);
    assert Linked(hash, record.stream, f.entries + [entry], |f.entries|);
    if ok {
      assert g.entries[..|f.entries| + 1] == g.entries;
    } else {
      assert g.entries[..|f.entries|] == f.entries;
    }
  }

  lemma {:induction false} KeptOn(f: Files, g: Files, entry: Entry)
    requires Kept(f, entry) && f.entries <= g.entries && Durable(f) <= Durable(g) <= |g.entries|
    ensures Kept(g, entry)
  {
  }

  /** The files once a head has been renamed into place. */
  function WithHead(f: Files, head: Head): Files { f.(head := Some(head), survivors := f.survivors + {Some(head)}) }

  lemma {:induction false} HeadedSound(hash: Hashing, stream: string, f: Files, head: Head)
    requires Sound(hash, stream, f, Some(head), false)
    ensures Sound(hash, stream, WithHead(f, head), Some(head), false)
  {
    assert f.entries[..Known(Some(head))] == f.entries;
  }

  /** What is found after a loss of power: a chain still, and every acknowledged entry with it. */
  lemma {:induction false} LeftStored(hash: Hashing, stream: string, f: Files, r: Remains)
    requires Stored(hash, stream, f) && Possible(f, r)
    ensures Stored(hash, stream, Left(f, r))
    ensures forall entry :: Kept(f, entry) ==> Kept(Left(f, r), entry)
  {
    forall i | 0 <= i < r.kept ensures Linked(hash, stream, f.entries[..r.kept], i) {
      assert Linked(hash, stream, f.entries, i);
    }
  }

  /** A stream that opening accepts: every line whole, and the head file naming one of them. */
  predicate Readable(f: Files) { !f.spoiled && (f.head.Some? ==> Names(f.entries, f.head.value)) }

  /** A loss of power that cuts no line in two leaves a running stream readable, whatever else it leaves,
      exactly when no head file runs ahead of the durable lines. */
  lemma {:induction false} ReadableAfter(hash: Hashing, stream: string, f: Files, head: Option<Head>, broken: bool)
    requires Sound(hash, stream, f, head, broken)
    ensures (forall r :: Possible(f, r) && !r.torn ==> Readable(Left(f, r))) <==> HeadDurable(f)
  {
    if !HeadDurable(f) {
      var h :| h in f.survivors && h.Some? && h.value.sequence > Durable(f);
      var r := Remains(f.created, Durable(f), false, h);
      assert Possible(f, r) && !Readable(Left(f, r));
    }
  }

  /** Nor does a loss of power move a head file ahead of the durable lines. */
  lemma {:induction false} LeftDurable(f: Files, r: Remains)
    requires Possible(f, r) && f.flushed <= |f.entries| && HeadDurable(f)
    ensures HeadDurable(Left(f, r))
    ensures LinesDurable(f) ==> LinesDurable(Left(f, r))
  {
  }

  /** Every line there is cannot be lost. */
  predicate LinesDurable(f: Files) { Durable(f) == |f.entries| }

  /** The files once the head file is that of the last line. */
  function CaughtUp(f: Files): Files {
    var last := LastHead(f.entries);
    if last.Some? && f.head != last then WithHead(f, last.value) else f
  }

  /** The files after an attempt to catch the head file up. */
  function Attempted(f: Files, outcome: HeadOutcome): Files {
    if f == CaughtUp(f) || outcome.NotReplaced? then f
    else if outcome.NotSynced? then CaughtUp(f)
    else SyncedFiles(CaughtUp(f))
  }

  /** What opening makes of a stream it reaches. */
  function Tried(f: Files, outcome: HeadOutcome): Files { if Readable(f) then Attempted(f, outcome) else f }

  /** Where catching up is safe: the head file is that of the last line already, or all lines are durable. */
  predicate Settled(f: Files) { f == CaughtUp(f) || LinesDurable(f) }

  /** However an attempt to catch the head file up ends, no head file is then ahead of the durable lines,
      exactly when there is nothing to catch up or every line is durable beforehand. */
  lemma {:induction false} CatchUpSafe(hash: Hashing, stream: string, f: Files)
    requires Stored(hash, stream, f) && Readable(f) && HeadDurable(f)
    ensures (forall outcome :: HeadDurable(Attempted(f, outcome))) <==> Settled(f)
  {
    if f.entries != [] {
      assert Linked(hash, stream, f.entries, |f.entries| - 1);
    }
    if !Settled(f) {
      assert LastHead(f.entries) in CaughtUp(f).survivors;
      assert !HeadDurable(Attempted(f, NotSynced));
    }
  }

  /** Head files that were within the durable lines still are, where catching up was safe. */
  predicate Careful(f: Files, g: Files) { HeadDurable(f) && Settled(f) ==> HeadDurable(g) }

  lemma {:induction false} SteadyCareful(hash: Hashing, stream: string, f: Files, g: Files, g': Files)
    requires Stored(hash, stream, g) && Careful(f, g) && Steady(g, g')
    ensures Careful(f, g')
  {
  }

  lemma {:induction false} TriedCareful(hash: Hashing, stream: string, f: Files, g: Files, outcome: HeadOutcome)
    requires Stored(hash, stream, g) && Careful(f, g) && Alike(f, g) && Whole(f, g)
    ensures Careful(f, Tried(g, outcome))
  {
    if HeadDurable(f) && Settled(f) && Readable(g) {
      CatchUpSafe(hash, stream, g);
    }
  }

  /** What a directory sync leaves of them is the same. */
  predicate Alike(f: Files, g: Files) { SyncedFiles(f) == SyncedFiles(g) }

  /** Nothing was lost of a stream's log. */
  predicate Whole(f: Files, g: Files) { g.entries == f.entries && Durable(f) <= Durable(g) }

  /** A stream that can be opened, if it can be read and, where that is needed, its head recorded. */
  predicate Opens(f: Files, readable: bool, outcome: HeadOutcome) {
    readable && Readable(f) && (f == CaughtUp(f) || outcome.Recorded?)
  }

  lemma {:induction false} AlikeOpens(f: Files, g: Files, readable: bool, outcome: HeadOutcome)
    requires Alike(f, g)
    ensures Opens(f, readable, outcome) <==> Opens(g, readable, outcome)
    ensures Alike(CaughtUp(f), CaughtUp(g))
  {
  }

  lemma {:induction false} OpenedSound(hash: Hashing, stream: string, f: Files)
    requires Stored(hash, stream, f) && !f.spoiled && f.head == LastHead(f.entries)
    ensures Sound(hash, stream, SyncedFiles(f), LastHead(f.entries), false)
    ensures HeadDurable(SyncedFiles(f)) <==> f.flushed == |f.entries|
  {
    if f.entries != [] {
      assert Linked(hash, stream, f.entries, |f.entries| - 1);
    }
    assert f.entries[..|f.entries|] == f.entries;
  }

  // --- the trail -----------------------------------------------------------

  /** Every stream is as it should be: running, in step with the heads in memory; stopped, a chain on storage. */
  ghost predicate AllSound(hash: Hashing, live: bool, heads: map<string, Head>, broken: set<string>,
                           files: map<string, Files>)
  {
    forall s {:trigger Of(files, s)} ::
      if live then Sound(hash, s, Of(files, s), HeadFor(heads, s), s in broken) else Stored(hash, s, Of(files, s))
  }

  ghost predicate AllKept(files: map<string, Files>, acknowledged: set<Entry>) {
    forall e :: e in acknowledged ==> Kept(Of(files, e.content.record.stream), e)
  }

  /** Head files that were within the durable lines still are. */
  ghost predicate HeadsStay(before: map<string, Files>, files: map<string, Files>) {
    forall s {:trigger Of(files, s)} :: HeadDurable(Of(before, s)) ==> HeadDurable(Of(files, s))
  }

  lemma {:induction false} HeadsStayOn(a: map<string, Files>, b: map<string, Files>, c: map<string, Files>)
    requires HeadsStay(a, b) && HeadsStay(b, c)
    ensures HeadsStay(a, c)
  {
    forall s | HeadDurable(Of(a, s)) ensures HeadDurable(Of(c, s)) {
      assert HeadDurable(Of(b, s));
    }
  }

  /** Files of every other stream change by directory syncs only. */
  ghost predicate OthersSteady(files: map<string, Files>, files': map<string, Files>, stream: string) {
    forall s {:trigger Of(files', s)} :: s != stream ==> Steady(Of(files, s), Of(files', s))
  }

  ghost predicate SameElsewhere(heads: map<string, Head>, broken: set<string>, heads': map<string, Head>,
                                broken': set<string>,
                                stream: string) {
    forall s {:trigger HeadFor(heads', s)} :: s != stream ==>
      HeadFor(heads', s) == HeadFor(heads, s) && (s in broken' <==> s in broken)
  }

  lemma {:induction false} StepSound(hash: Hashing, heads: map<string, Head>, broken: set<string>,
                                     files: map<string, Files>,
                                     heads': map<string, Head>, broken': set<string>, files': map<string, Files>,
                                     stream: string)
    requires AllSound(hash, true, heads, broken, files)
    requires OthersSteady(files, files', stream) && SameElsewhere(heads, broken, heads', broken', stream)
    requires Sound(hash, stream, Of(files', stream), HeadFor(heads', stream), stream in broken')
    ensures AllSound(hash, true, heads', broken', files')
  {
    forall s ensures Sound(hash, s, Of(files', s), HeadFor(heads', s), s in broken') {
      if s != stream {
        assert Sound(hash, s, Of(files, s), HeadFor(heads, s), s in broken);
        SteadyKeeps(hash, s, Of(files, s), Of(files', s));
      }
    }
  }

  lemma {:induction false} StepKept(hash: Hashing, live: bool, heads: map<string, Head>, broken: set<string>,
                                    files: map<string, Files>, files': map<string, Files>, acknowledged: set<Entry>,
                                    stream: string)
    requires AllSound(hash, live, heads, broken, files) && AllKept(files, acknowledged)
    requires OthersSteady(files, files', stream)
    requires Of(files, stream).entries <= Of(files', stream).entries
    requires Durable(Of(files, stream)) <= Durable(Of(files', stream)) <= |Of(files', stream).entries|
    ensures AllKept(files', acknowledged)
  {
    forall e | e in acknowledged ensures Kept(Of(files', e.content.record.stream), e) {
      var s := e.content.record.stream;
      assert Stored(hash, s, Of(files, s));
      assert Kept(Of(files, s), e);
      KeptOn(Of(files, s), Of(files', s), e);
    }
  }

  ghost predicate AllOpen(files: map<string, Files>, readable: set<string>, outcomes: map<string, HeadOutcome>)
    requires outcomes.Keys == files.Keys
  {
    forall s :: s in files ==> Opens(files[s], s in readable, outcomes[s])
  }

  ghost predicate AllWhole(before: map<string, Files>, files: map<string, Files>) {
    forall s {:trigger Of(files, s)} :: Whole(Of(before, s), Of(files, s))
  }

  /** A stream that was opened: its head, in memory and in its file, is that of its last line, and the head file
      is within the durable lines just when all lines had been flushed before. */
  predicate Continued(f: Files, g: Files, head: Option<Head>) {
    && g.entries == f.entries && g.flushed == f.flushed
    && head == g.head == LastHead(g.entries)
    && (HeadDurable(g) <==> f.flushed == |f.entries|)
  }

  ghost predicate AllCareful(before: map<string, Files>, files: map<string, Files>) {
    forall s {:trigger Of(files, s)} :: Careful(Of(before, s), Of(files, s))
  }

  ghost predicate Continues(before: map<string, Files>, files: map<string, Files>, heads: map<string, Head>) {
    forall s {:trigger Of(files, s)} :: s in files ==> Continued(Of(before, s), Of(files, s), HeadFor(heads, s))
  }

  /** Where there is one stream, and it is read, its files are what the attempt makes of them. */
  ghost predicate OnlyTried(before: map<string, Files>, files: map<string, Files>, readable: set<string>,
                            outcomes: map<string, HeadOutcome>)
    requires outcomes.Keys == before.Keys
  {
    forall s :: before.Keys == {s} && s in readable ==> Of(files, s) == Tried(before[s], outcomes[s])
  }

  /** The streams opened so far, and those still to be. */
  ghost predicate Opening(before: map<string, Files>, files: map<string, Files>, heads: map<string, Head>,
                          readable: set<string>, outcomes: map<string, HeadOutcome>, rest: set<string>)
    requires outcomes.Keys == before.Keys
  {
    && rest <= files.Keys == before.Keys && heads.Keys <= files.Keys - rest
    && forall s {:trigger Of(files, s)} ::
         && Whole(Of(before, s), Of(files, s)) && Careful(Of(before, s), Of(files, s))
         && (s in rest ==> Alike(Of(before, s), Of(files, s)))
         && (s in before && s !in rest ==>
               && Opens(Of(before, s), s in readable, outcomes[s])
               && HeadFor(heads, s) == LastHead(Of(files, s).entries) && Alike(CaughtUp(Of(before, s)), Of(files, s)))
  }

  lemma {:induction false} OpenedOne(hash: Hashing, before: map<string, Files>, files: map<string, Files>,
                                     heads: map<string, Head>,
                                     readable: set<string>, outcomes: map<string, HeadOutcome>, rest: set<string>,
                                     stream: string, files': map<string, Files>, heads': map<string, Head>)
    requires outcomes.Keys == before.Keys && Opening(before, files, heads, readable, outcomes, rest)
    requires stream in rest && files'.Keys == files.Keys && heads'.Keys <= heads.Keys + {stream}
    requires OthersSteady(files, files', stream) && SameElsewhere(heads, {}, heads', {}, stream)
    requires AllSound(hash, false, heads, {}, files)
    requires Whole(Of(files, stream), Of(files', stream)) && stream in readable
    requires Opens(Of(files, stream), true, outcomes[stream])
    requires HeadFor(heads', stream) == LastHead(Of(files, stream).entries)
    requires Alike(CaughtUp(Of(files, stream)), Of(files', stream))
    requires Of(files', stream) == Tried(Of(files, stream), outcomes[stream])
    ensures Opening(before, files', heads', readable, outcomes, rest - {stream})
  {
    AlikeOpens(Of(before, stream), Of(files, stream), true, outcomes[stream]);
    assert Stored(hash, stream, Of(files, stream));
    TriedCareful(hash, stream, Of(before, stream), Of(files, stream), outcomes[stream]);
    forall s | s != stream
      ensures Whole(Of(before, s), Of(files', s)) && Careful(Of(before, s), Of(files', s))
      ensures Alike(Of(files, s), Of(files', s))
    {
      assert Stored(hash, s, Of(files, s));
      SteadyCareful(hash, s, Of(before, s), Of(files, s), Of(files', s));
    }
  }

  lemma {:induction false} StillWhole(hash: Hashing, before: map<string, Files>, files: map<string, Files>,
                                      heads: map<string, Head>,
                                      readable: set<string>, outcomes: map<string, HeadOutcome>, rest: set<string>,
                                      stream: string, files': map<string, Files>)
    requires outcomes.Keys == before.Keys && Opening(before, files, heads, readable, outcomes, rest)
    requires OthersSteady(files, files', stream) && AllSound(hash, false, heads, {}, files)
    requires stream in rest && Whole(Of(files, stream), Of(files', stream))
    requires Of(files', stream) == Tried(Of(files, stream), outcomes[stream])
    ensures AllWhole(before, files') && AllCareful(before, files')
  {
    forall s ensures Whole(Of(before, s), Of(files', s)) && Careful(Of(before, s), Of(files', s)) {
      assert Stored(hash, s, Of(files, s)) && Whole(Of(before, s), Of(files, s));
      if s == stream {
        TriedCareful(hash, s, Of(before, s), Of(files, s), outcomes[s]);
      } else {
        SteadyCareful(hash, s, Of(before, s), Of(files, s), Of(files', s));
      }
    }
  }

  lemma {:induction false} SyncedKept(hash: Hashing, heads: map<string, Head>, files: map<string, Files>,
                                      acknowledged: set<Entry>)
    requires AllSound(hash, false, heads, {}, files) && AllKept(files, acknowledged)
    ensures AllKept(Synced(files), acknowledged)
  {
    forall e | e in acknowledged ensures Kept(Of(Synced(files), e.content.record.stream), e) {
      assert Stored(hash, e.content.record.stream, Of(files, e.content.record.stream));
      KeptOn(Of(files, e.content.record.stream), Of(Synced(files), e.content.record.stream), e);
    }
  }

  lemma {:induction false} AllOpened(hash: Hashing, before: map<string, Files>, files: map<string, Files>,
                                     heads: map<string, Head>,
                                     readable: set<string>, outcomes: map<string, HeadOutcome>)
    requires outcomes.Keys == before.Keys && Opening(before, files, heads, readable, outcomes, {})
    requires AllSound(hash, false, heads, {}, files)
    ensures AllSound(hash, true, heads, {}, Synced(files))
    ensures AllOpen(before, readable, outcomes)
    ensures AllWhole(before, Synced(files)) && AllCareful(before, Synced(files))
    ensures Continues(before, Synced(files), heads)
  {
    forall s | s in before ensures Opens(before[s], s in readable, outcomes[s]) {
      assert Whole(Of(before, s), Of(files, s));
    }
    forall s
      ensures Sound(hash, s, Of(Synced(files), s), HeadFor(heads, s), false)
      ensures Whole(Of(before, s), Of(Synced(files), s)) && Careful(Of(before, s), Of(Synced(files), s))
      ensures s in files ==> Continued(Of(before, s), Of(Synced(files), s), HeadFor(heads, s))
    {
      assert Stored(hash, s, Of(files, s)) && Whole(Of(before, s), Of(files, s));
      if s in before {
        OpenedStream(hash, s, Of(before, s), Of(files, s), readable, outcomes[s]);
      }
    }
  }

  lemma {:induction false} OpenedStream(hash: Hashing, stream: string, f: Files, g: Files, readable: set<string>,
                                        outcome: HeadOutcome)
    requires Stored(hash, stream, g) && Whole(f, g) && Careful(f, g)
    requires Opens(f, stream in readable, outcome) && Alike(CaughtUp(f), g)
    ensures var head := LastHead(g.entries);
      Sound(hash, stream, SyncedFiles(g), head, false) && Continued(f, SyncedFiles(g), head)
    ensures Whole(f, SyncedFiles(g)) && Careful(f, SyncedFiles(g))
  {
    SteadyCareful(hash, stream, f, g, SyncedFiles(g));
    OpenedSound(hash, stream, g);
  }

  /** The answer to an append is the entry with which the chain goes on, if it fits and its line reaches storage. */
  ghost predicate AnswersNext(hash: Hashing, size: Sizing, f: Files, at: nat, record: Record, line: LineOutcome,
                              r: Result<Entry, AuditError>)
  {
    forall entry :: IsNext(hash, f.entries, at, record, entry) ==>
      r == if size(entry) > MAX_ENTRY_BYTES then Failure(EntryTooLarge(size(entry)))
           else if Reaches(f, line) then Success(entry) else Failure(Unavailable)
  }

  lemma {:induction false} Answers(hash: Hashing, size: Sizing, f: Files, head: Option<Head>, at: nat, record: Record,
                                   line: LineOutcome)
    requires Sound(hash, record.stream, f, head, false)
    ensures var sealed := Seal(hash, size, head, at, record);
      AnswersNext(hash, size, f, at, record, line,
                  if sealed.Success? && !Reaches(f, line) then Failure(Unavailable) else sealed)
  {
    assert f.entries[..Known(head)] == f.entries;
    forall entry | IsNext(hash, f.entries, at, record, entry)
      ensures Seal(hash, size, head, at, record)
           == if size(entry) <= MAX_ENTRY_BYTES then Success(entry) else Failure(EntryTooLarge(size(entry)))
    {
      SealsNext(hash, size, f.entries, at, record, entry);
    }
  }

  class Trail {
    const hash: Hashing
    const size: Sizing
    var live: bool
    var heads: map<string, Head>
    var broken: set<string>
    var files: map<string, Files>
    ghost var acknowledged: set<Entry>

    ghost predicate Valid()
      reads this
    {
      AllSound(hash, live, heads, broken, files) && AllKept(files, acknowledged)
    }

    /** A new directory, not yet opened. */
    constructor (hash: Hashing, size: Sizing)
      ensures Valid() && !live && files == map[] && acknowledged == {}
      ensures this.hash == hash && this.size == size
    {
      this.hash, this.size := hash, size;
      live, heads, broken, files, acknowledged := false, map[], {}, map[], {};
    }

    /** `append_line`. */
    method AppendLine(stream: string, entry: Entry, outcome: LineOutcome) returns (ok: bool)
      requires Of(files, stream).flushed <= |Of(files, stream).entries|
      requires Of(files, stream).named || Of(files, stream).spoiled ==> Of(files, stream).created
      requires Of(files, stream).head in Of(files, stream).survivors
      modifies `files
      ensures ok == Reaches(old(Of(files, stream)), outcome)
      ensures Wrote(old(Of(files, stream)), Of(files, stream), entry, ok)
      ensures InLog(old(Of(files, stream)), Of(files, stream), entry, outcome)
      ensures files.Keys <= old(files.Keys) + {stream}
      ensures OthersSteady(old(files), files, stream)
    {
      var f := Of(files, stream);
      if outcome.NotOpened? {
        return false;
      }
      var newLog := !f.created;
      if outcome.NotWritten? {
        files := files[stream := f.(created := true, spoiled := f.spoiled || outcome.torn)];
        return false;
      }
      f := f.(created := true, entries := if f.spoiled then f.entries else f.entries + [entry]);
      files := files[stream := f];
      if outcome.NotFlushed? {
        return false;
      }
      files := files[stream := f.(flushed := |f.entries|)];
      if newLog {
        if outcome.NotNamed? {
          return false;
        }
        files := Synced(files);
      }
      return true;
    }

    /** `write_head`. */
    method WriteHead(stream: string, head: Head, outcome: HeadOutcome) returns (ok: bool)
      requires stream in files
      modifies `files
      ensures ok == outcome.Recorded?
      ensures Of(files, stream) ==
        match outcome
        case NotReplaced => old(Of(files, stream))
        case NotSynced => WithHead(old(Of(files, stream)), head)
        case Recorded => SyncedFiles(WithHead(old(Of(files, stream)), head))
      ensures files.Keys == old(files.Keys)
      ensures OthersSteady(old(files), files, stream)
    {
      if outcome.NotReplaced? {
        return false;
      }
      files := files[stream := WithHead(files[stream], head)];
      if outcome.NotSynced? {
        return false;
      }
      files := Synced(files);
      return true;
    }

    /** The files of a stream. */
    function Log(stream: string): Files
      reads this
    {
      Of(files, stream)
    }

    /** A stream whose head file names nothing past its last durable line stays so. */
    twostate lemma StaysDurable(stream: string)
      requires AllSound(hash, true, old(heads), old(broken), old(files))
      requires OthersSteady(old(files), files, stream)
      requires HeadDurable(old(Of(files, stream))) ==> HeadDurable(Of(files, stream))
      ensures HeadsStay(old(files), files)
    {
      forall s | HeadDurable(old(Of(files, s))) ensures HeadDurable(Of(files, s)) {
        assert Sound(hash, s, old(Of(files, s)), HeadFor(old(heads), s), s in old(broken));
        assert s != stream ==> Steady(old(Of(files, s)), Of(files, s));
      }
    }

    /** The attempt to record a head that is already in memory. */
    method ReplaceHead(stream: string, head: Head, outcome: HeadOutcome)
      requires Valid() && live && stream in files && HeadFor(heads, stream) == Some(head) && stream !in broken
      requires head.sequence <= Durable(Of(files, stream))
      modifies `files
      ensures Valid() && OthersSteady(old(files), files, stream) && files.Keys == old(files.Keys)
      ensures HeadsStay(old(files), files)
      ensures Steady(if outcome.NotReplaced? then old(Of(files, stream)) else WithHead(old(Of(files, stream)), head),
                     Of(files, stream))
    {
      assert Sound(hash, stream, Of(files, stream), Some(head), false);
      HeadedSound(hash, stream, Of(files, stream), head);
      var ok := WriteHead(stream, head, outcome);
      SteadyKeeps(hash, stream,
                  if outcome.NotReplaced? then old(Of(files, stream)) else WithHead(old(Of(files, stream)), head),
                  Of(files, stream));
      StepSound(hash, heads, broken, old(files), heads, broken, files, stream);
      StepKept(hash, true, heads, broken, old(files), files, acknowledged, stream);
      StaysDurable(stream);
    }

    /** The line, and what it means for the stream. */
    method Extend(record: Record, at: nat, entry: Entry, line: LineOutcome) returns (appended: bool)
      requires Valid() && live && record.stream !in broken
      requires Seal(hash, size, HeadFor(heads, record.stream), at, record) == Success(entry)
      modifies `heads, `broken, `files, `acknowledged
      ensures Valid() && OthersSteady(old(files), files, record.stream)
      ensures files.Keys <= old(files.Keys) + {record.stream}
      ensures HeadsStay(old(files), files)
      ensures var stream, f, g := record.stream, old(Of(files, record.stream)), Of(files, record.stream);
        && appended == Reaches(f, line) && InLog(f, g, entry, line) && g.head == f.head && g.survivors <= f.survivors
        && Durable(f) <= Durable(g)
        && SealedOn(entry) == LastHead(f.entries)
        && if appended then
             && heads == old(heads)[stream := HeadOf(entry)] && broken == old(broken)
             && acknowledged == old(acknowledged) + {entry} && stream in files
             && g.entries == f.entries + [entry] && Durable(g) == |g.entries| == entry.content.sequence
           else
             heads == old(heads) && broken == old(broken) + {stream} && acknowledged == old(acknowledged)
    {
      var stream := record.stream;
      assert Sound(hash, stream, Of(files, stream), HeadFor(heads, stream), false);
      appended := AppendLine(stream, entry, line);
      AppendedSound(hash, size, old(Of(files, stream)), Of(files, stream), HeadFor(heads, stream), at, record, entry,
                    appended);
      StepKept(hash, true, heads, broken, old(files), files, acknowledged, stream);
      if appended {
        heads := heads[stream := HeadOf(entry)];
        acknowledged := acknowledged + {entry};
      } else {
        broken := broken + {stream};
      }
      StepSound(hash, old(heads), old(broken), old(files), heads, broken, files, stream);
      StaysDurable(stream);
    }

    /** `Inner::append`. A broken stream is refused untouched; an entry that cannot be sealed changes nothing; a
        line that may not be durable breaks the stream and is not acknowledged; and otherwise the log is longer
        by exactly the entry sealed on its last head, durably, whatever becomes of the head file. */
    method Append(record: Record, at: nat, line: LineOutcome, head: HeadOutcome) returns (r: Result<Entry, AuditError>)
      requires Valid() && live
      modifies `heads, `broken, `files, `acknowledged
      ensures Valid() && live
      ensures OthersSteady(old(files), files, record.stream) && files.Keys <= old(files.Keys) + {record.stream}
      ensures Durable(old(Of(files, record.stream))) <= Durable(Of(files, record.stream))
      ensures HeadsStay(old(files), files)
      ensures var stream := record.stream;
        var f, g := old(Of(files, stream)), Of(files, stream);
        var sealed := Seal(hash, size, old(HeadFor(heads, stream)), at, record);
        if stream in old(broken) || sealed.Failure? then
          && unchanged(this)
          && r == Failure(if stream in old(broken) then Unavailable else sealed.error)
        else if Reaches(f, line) then
          && r == Success(sealed.value) && SealedOn(sealed.value) == LastHead(f.entries)
          && heads == old(heads)[stream := HeadOf(sealed.value)] && broken == old(broken)
          && g.entries == f.entries + [sealed.value] && Durable(g) == |g.entries|
          && g.head == (if head.NotReplaced? then f.head else Some(HeadOf(sealed.value)))
          && acknowledged == old(acknowledged) + {sealed.value}
        else
          && r == Failure(Unavailable)
          && heads == old(heads) && broken == old(broken) + {stream} && acknowledged == old(acknowledged)
          && InLog(f, g, sealed.value, line) && g.head == f.head
      ensures record.stream !in old(broken) ==>
        AnswersNext(hash, size, old(Of(files, record.stream)), at, record, line, r)
    {
      var stream := record.stream;
      assert Sound(hash, stream, Of(files, stream), HeadFor(heads, stream), stream in broken);
      if stream in broken {
        return Failure(Unavailable);
      }
      var sealed := Seal(hash, size, HeadFor(heads, stream), at, record);
      Answers(hash, size, Of(files, stream), HeadFor(heads, stream), at, record, line);
      if sealed.Failure? {
        return Failure(sealed.error);
      }
      var entry := sealed.value;
      var appended := Extend(record, at, entry, line);
      if !appended {
        return Failure(Unavailable);
      }
      ghost var extended := files;
      ReplaceHead(stream, HeadOf(entry), head);
      HeadsStayOn(old(files), extended, files);
      return Success(entry);
    }

    /** The process ends, at any point between two writes or after one that failed. */
    method Stop()
      requires Valid()
      modifies `live, `heads, `broken
      ensures Valid() && !live
    {
      forall s ensures Stored(hash, s, Of(files, s)) {
        assert live ==> Sound(hash, s, Of(files, s), HeadFor(heads, s), s in broken);
      }
      live, heads, broken := false, map[], {};
    }

    /** The machine ends: of each log all durable lines are left and perhaps more, of each head file any one that
        was not yet replaced for good. */
    method LosePower(remains: map<string, Remains>)
      requires Valid() && !live
      requires remains.Keys == files.Keys && forall s :: s in files ==> Possible(files[s], remains[s])
      modifies `files
      ensures Valid()
      ensures files == map s | s in old(files) :: Left(old(files)[s], remains[s])
    {
      ghost var before := files;
      files := map s | s in files :: Left(files[s], remains[s]);
      forall s ensures Stored(hash, s, Of(files, s)) && forall e :: Kept(Of(before, s), e) ==> Kept(Of(files, s), e) {
        assert Stored(hash, s, Of(before, s));
        if s in before {
          LeftStored(hash, s, before[s], remains[s]);
        }
      }
    }

    /** The machine ends while the trail is running: where no head file ran ahead of the durable lines, only a
        line cut in two can keep a stream from being opened again. */
    method Crash(remains: map<string, Remains>)
      requires Valid() && live
      requires remains.Keys == files.Keys && forall s :: s in files ==> Possible(files[s], remains[s])
      modifies `live, `heads, `broken, `files
      ensures Valid() && !live
      ensures files == map s | s in old(files) :: Left(old(files)[s], remains[s])
      ensures forall s :: s in files && HeadDurable(old(files)[s]) && !remains[s].torn ==> Readable(files[s])
    {
      forall s | s in files ensures HeadDurable(files[s]) && !remains[s].torn ==> Readable(Left(files[s], remains[s])) {
        assert Sound(hash, s, Of(files, s), HeadFor(heads, s), s in broken);
        ReadableAfter(hash, s, files[s], HeadFor(heads, s), s in broken);
      }
      Stop();
      LosePower(remains);
    }

    /** One stream, read, verified and its head file caught up. */
    method OpenStream(stream: string, outcome: HeadOutcome) returns (refused: Option<AuditError>)
      requires Valid() && !live && stream in files && stream !in heads
      modifies `files, `heads
      ensures Valid() && OthersSteady(old(files), files, stream) && files.Keys == old(files.Keys)
      ensures SameElsewhere(old(heads), broken, heads, broken, stream) && heads.Keys <= old(heads.Keys) + {stream}
      ensures var f, g := old(files[stream]), files[stream];
        && Whole(f, g) && g == Tried(f, outcome)
        && (refused.None? <==> Opens(f, true, outcome))
        && (refused.None? ==> HeadFor(heads, stream) == LastHead(f.entries) && Alike(CaughtUp(f), g))
        && (f.spoiled ==> refused == Some(Malformed))
        && (!f.spoiled && !Readable(f) ==> refused.Some? && refused.value.Broken?)
        && (Readable(f) ==> refused.None? || refused == Some(Unavailable))
    {
      var f := files[stream];
      assert Stored(hash, stream, Of(files, stream));
      if f.spoiled {
        return Some(Malformed);
      }
      var verified := Verify(hash, stream, f.entries, f.head);
      if verified.Failure? {
        return Some(Broken(verified.error));
      }
      if verified.value.Some? {
        if f.head != verified.value {
          var written := WriteHead(stream, verified.value.value, outcome);
          if !written {
            return Some(Unavailable);
          }
        }
        heads := heads[stream := verified.value.value];
      }
      return None;
    }

    /** The loop over the streams. */
    method OpenStreams(readable: set<string>, outcomes: map<string, HeadOutcome>) returns (refused: Option<AuditError>)
      requires Valid() && !live && heads == map[] && broken == {} && outcomes.Keys == files.Keys
      modifies `heads, `files
      ensures Valid() && files.Keys == old(files.Keys)
      ensures AllWhole(old(files), files) && AllCareful(old(files), files)
      ensures OnlyTried(old(files), files, readable, outcomes)
      ensures refused.None? ==> Opening(old(files), files, heads, readable, outcomes, {})
      ensures refused.Some? ==> !AllOpen(old(files), readable, outcomes)
    {
      var rest := files.Keys;
      while rest != {}
        invariant Valid() && rest <= old(files.Keys)
        invariant Opening(old(files), files, heads, readable, outcomes, rest)
        invariant rest == files.Keys ==> files == old(files)
        invariant rest != files.Keys ==> OnlyTried(old(files), files, readable, outcomes)
        decreases rest
      {
        var stream :| stream in rest;
        assert Alike(old(Of(files, stream)), Of(files, stream));
        AlikeOpens(old(Of(files, stream)), Of(files, stream), stream in readable, outcomes[stream]);
        if stream !in readable {
          return Some(Unavailable);
        }
        ghost var files', heads' := files, heads;
        refused := OpenStream(stream, outcomes[stream]);
        if refused.Some? {
          StillWhole(hash, old(files), files', heads', readable, outcomes, rest, stream, files);
          return;
        }
        OpenedOne(hash, old(files), files', heads', readable, outcomes, rest, stream, files, heads);
        rest := rest - {stream};
      }
      return None;
    }

    /** The last sync of the directory, after which the trail can be used. */
    method GoLive(ghost before: map<string, Files>, ghost readable: set<string>,
                  ghost outcomes: map<string, HeadOutcome>)
      requires Valid() && !live && broken == {} && outcomes.Keys == before.Keys
      requires Opening(before, files, heads, readable, outcomes, {})
      modifies `live, `files
      ensures Valid() && live && files.Keys == before.Keys
      ensures AllOpen(before, readable, outcomes) && AllWhole(before, files) && AllCareful(before, files)
      ensures Continues(before, files, heads)
    {
      AllOpened(hash, before, files, heads, readable, outcomes);
      SyncedKept(hash, heads, files, acknowledged);
      files := Synced(files);
      live := true;
    }

    /** `open_with`: every stream is verified before any can be extended. It succeeds exactly when all of them
        read back, whole and up to their heads, and all it writes is written; the trail then continues each
        stream from its last line. What was in doubt after a failed write is thereby taken as it was found: the
        head file of an opened stream is within the durable lines exactly where all lines had been flushed; and
        however opening ends, head files stay within them where catching up was safe beforehand. */
    method Open(locked: bool, readable: set<string>, outcomes: map<string, HeadOutcome>, synced: bool)
      returns (refused: Option<AuditError>)
      requires Valid() && !live && outcomes.Keys == files.Keys
      modifies `live, `heads, `broken, `files
      ensures Valid() && live == refused.None?
      ensures refused.None? <==> locked && synced && AllOpen(old(files), readable, outcomes)
      ensures files.Keys == old(files.Keys)
      ensures AllWhole(old(files), files) && AllCareful(old(files), files)
      ensures locked && refused.Some? ==> OnlyTried(old(files), files, readable, outcomes)
      ensures refused.None? ==> broken == {} && Continues(old(files), files, heads)
    {
      heads, broken := map[], {};
      if !locked {
        return Some(Unavailable);
      }
      refused := OpenStreams(readable, outcomes);
      if refused.Some? {
        return;
      }
      if !synced {
        return Some(Unavailable);
      }
      GoLive(old(files), readable, outcomes);
      return None;
    }

    ghost predicate HeadsDurable()
      reads this
    {
      forall s :: HeadDurable(Of(files, s))
    }

    ghost predicate AllLinesDurable()
      reads this
    {
      forall s :: LinesDurable(Of(files, s))
    }

    /** A loss of power, whether or not the trail is running. */
    method Outage(remains: map<string, Remains>)
      requires Valid()
      requires remains.Keys == files.Keys && forall s :: s in files ==> Possible(files[s], remains[s])
      modifies `live, `heads, `broken, `files
      ensures Valid()
      ensures old(HeadsDurable()) ==> HeadsDurable()
      ensures old(HeadsDurable() && AllLinesDurable()) ==> AllLinesDurable()
    {
      LeftsDurable(remains);
      if live {
        Crash(remains);
      } else {
        LosePower(remains);
      }
    }

    /** One event; what cannot happen now does not. */
    method Happen(event: Event)
      requires Valid()
      modifies this
      ensures Valid() && old(acknowledged) <= acknowledged
      ensures old(HeadsDurable()) && !event.Reopen? ==> HeadsDurable()
      ensures old(HeadsDurable() && AllLinesDurable()) && !LeavesUnflushed(event) ==>
        HeadsDurable() && AllLinesDurable()
    {
      match event
      case Write(record, at, line, head) =>
        if live {
          var r := Append(record, at, line, head);
          if old(HeadsDurable() && AllLinesDurable()) && !LeavesUnflushed(event) {
            LinesStayDurable(record.stream);
          }
        }
      case Halt =>
        Stop();
      case PowerLoss(remains) =>
        if remains.Keys == files.Keys && forall s :: s in files ==> Possible(files[s], remains[s]) {
          Outage(remains);
        }
      case Reopen(locked, readable, outcomes, synced) =>
        if !live && outcomes.Keys == files.Keys {
          var refused := Open(locked, readable, outcomes, synced);
          if old(HeadsDurable() && AllLinesDurable()) {
            OpenedLinesDurable();
          }
        }
    }

    /** Appending leaves every line durable, if they were and the new one is. */
    twostate lemma LinesStayDurable(stream: string)
      requires Valid() && live && old(live && Valid() && AllLinesDurable())
      requires OthersSteady(old(files), files, stream) && LinesDurable(Of(files, stream))
      ensures AllLinesDurable()
    {
      forall s ensures LinesDurable(Of(files, s)) {
        assert Sound(hash, s, Of(files, s), HeadFor(heads, s), s in broken);
        assert old(Sound(hash, s, Of(files, s), HeadFor(heads, s), s in broken));
        assert s != stream ==> Steady(old(Of(files, s)), Of(files, s));
      }
    }

    /** So does opening. */
    twostate lemma OpenedLinesDurable()
      requires Valid() && AllWhole(old(files), files) && AllCareful(old(files), files)
      requires old(HeadsDurable() && AllLinesDurable())
      ensures HeadsDurable() && AllLinesDurable()
    {
      forall s ensures HeadDurable(Of(files, s)) && LinesDurable(Of(files, s)) {
        assert live ==> Sound(hash, s, Of(files, s), HeadFor(heads, s), s in broken);
        assert Stored(hash, s, Of(files, s)) && Whole(old(Of(files, s)), Of(files, s));
        assert Careful(old(Of(files, s)), Of(files, s));
      }
    }

    /** And so does losing power. */
    lemma LeftsDurable(remains: map<string, Remains>)
      requires Valid() && remains.Keys == files.Keys && forall s :: s in files ==> Possible(files[s], remains[s])
      ensures var left := map s | s in files :: Left(files[s], remains[s]);
        HeadsStay(files, left) && (HeadsDurable() && AllLinesDurable() ==> forall s :: LinesDurable(Of(left, s)))
    {
      ghost var left := map s | s in files :: Left(files[s], remains[s]);
      assert forall s :: Of(left, s) == if s in files then Left(Of(files, s), remains[s]) else NO_FILES;
      forall s | s in files && HeadDurable(files[s])
        ensures HeadDurable(Left(files[s], remains[s]))
        ensures (LinesDurable(files[s]) ==> LinesDurable(Left(files[s], remains[s])))
      {
        assert live ==> Sound(hash, s, Of(files, s), HeadFor(heads, s), s in broken);
        assert Stored(hash, s, Of(files, s));
        LeftDurable(files[s], remains[s]);
      }
    }

    /** Any run: appends, stops, losses of power and reopenings, with any outcomes. No acknowledged entry is lost
        and none shares its predecessor with another. Head files that start within the durable lines stay there
        as long as nothing is reopened; and with reopenings too, where every line starts durable and no append
        leaves one in doubt. */
    method Run(events: seq<Event>)
      requires Valid()
      modifies this
      ensures Valid() && old(acknowledged) <= acknowledged
      ensures NoneForked(acknowledged)
      ensures old(HeadsDurable()) && (forall e :: e in events ==> !e.Reopen?) ==> HeadsDurable()
      ensures old(HeadsDurable() && AllLinesDurable()) && (forall e :: e in events ==> !LeavesUnflushed(e)) ==>
        HeadsDurable()
    {
      for i := 0 to |events|
        invariant Valid() && old(acknowledged) <= acknowledged
        invariant old(HeadsDurable()) && (forall e :: e in events ==> !e.Reopen?) ==> HeadsDurable()
        invariant old(HeadsDurable() && AllLinesDurable()) && (forall e :: e in events ==> !LeavesUnflushed(e)) ==>
          HeadsDurable() && AllLinesDurable()
      {
        Happen(events[i]);
      }
      SealedOnce(hash, live, heads, broken, files, acknowledged);
    }
  }

  /** What can happen to a trail. */
  datatype Event =
    | Write(record: Record, at: nat, line: LineOutcome, head: HeadOutcome)
    | Halt
    | PowerLoss(remains: map<string, Remains>)
    | Reopen(locked: bool, readable: set<string>, outcomes: map<string, HeadOutcome>, synced: bool)

  /** An append whose line may be whole in the log without being durable. */
  predicate LeavesUnflushed(event: Event) {
    event.Write? && (event.line.NotFlushed? || event.line.NotNamed?)
  }

  predicate SameParent(a: Entry, b: Entry) {
    a.content.record.stream == b.content.record.stream && SealedOn(a) == SealedOn(b)
  }

  /** No two entries of a stream were sealed onto one head. */
  ghost predicate NoneForked(entries: set<Entry>) {
    forall a, b :: a in entries && b in entries && SameParent(a, b) ==> a == b
  }

  lemma {:induction false} SealedOnce(hash: Hashing, live: bool, heads: map<string, Head>, broken: set<string>,
                                      files: map<string, Files>, acknowledged: set<Entry>)
    requires AllSound(hash, live, heads, broken, files) && AllKept(files, acknowledged)
    ensures NoneForked(acknowledged)
  {
    forall a, b | a in acknowledged && b in acknowledged && SameParent(a, b) ensures a == b {
      var s := a.content.record.stream;
      assert live ==> Sound(hash, s, Of(files, s), HeadFor(heads, s), s in broken);
      assert Stored(hash, s, Of(files, s));
      NoFork(hash, s, Of(files, s).entries, a.content.sequence - 1, b.content.sequence - 1);
    }
  }

  /** Across a reopening a head file can run ahead of the durable lines: a first line that was written whole
      but not flushed is adopted, and its head recorded, without a flush of the log. */
  method AdoptUnflushed(hash: Hashing, size: Sizing, record: Record) returns (trail: Trail)
    requires Seal(hash, size, None, 1, record).Success?
    ensures fresh(trail) && trail.Valid() && trail.live && trail.acknowledged == {}
    ensures !HeadDurable(trail.Log(record.stream))
  {
    trail := new Trail(hash, size);
    var refused := trail.Open(true, {}, map[], true);
    var stream := record.stream;
    assert Sound(hash, stream, trail.Log(stream), HeadFor(trail.heads, stream), false);
    var r := trail.Append(record, 1, NotFlushed, NotReplaced);
    assert |trail.Log(stream).entries| == 1 && Durable(trail.Log(stream)) == 0 && Readable(trail.Log(stream));
    trail.Stop();
    assert trail.files.Keys == {stream} && Readable(trail.files[stream]);
    refused := trail.Open(true, trail.files.Keys, map s | s in trail.files :: Recorded, true);
  }

  /** A refused opening can move a head file too, and a flush of the line is not enough: here the line was
      flushed and only the log's name was not, and the head was renamed into place before a sync failed. */
  method RefuseAhead(hash: Hashing, size: Sizing, record: Record) returns (trail: Trail)
    requires Seal(hash, size, None, 1, record).Success?
    ensures fresh(trail) && trail.Valid() && !trail.live
    ensures var f := trail.Log(record.stream); f.flushed == |f.entries| && !HeadDurable(f)
  {
    trail := new Trail(hash, size);
    var refused := trail.Open(true, {}, map[], true);
    var stream := record.stream;
    assert Sound(hash, stream, trail.Log(stream), HeadFor(trail.heads, stream), false);
    var r := trail.Append(record, 1, NotNamed, NotReplaced);
    assert trail.files.Keys == {stream} && Durable(trail.Log(stream)) == 0 && Readable(trail.Log(stream));
    trail.Stop();
    assert trail.Log(stream) != CaughtUp(trail.Log(stream));
    refused := trail.Open(true, {stream}, map[stream := NotSynced], true);
  }
}
