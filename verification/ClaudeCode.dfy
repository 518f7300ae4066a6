/** The transcript provider as an object (src/providers/claude_code.rs, `ClaudeCodeProvider`): it
    remembers cursors, reads a file increment by increment and moves its cursor on each receipt. */
module ClaudeCode {
  import opened Options
  import opened Records
  import opened Lines
  import opened Reading
  import opened Scanning
  import opened Transcript
  import opened Tables
  import opened BufferOwner
  import opened Effects
  import CursorKeys

  /** `drafts` and then what is left from `reached` on are the one read from `from`. */
  ghost predicate Covers(src: Source, file: File, from: Mark, drafts: seq<RecordDraft>, reached: Mark) {
    && from.offset <= reached.offset <= |file.content|
    && var rules, stamp := RulesOf(src), Constant(file.modified);
       Read(rules, file.content, stamp, from) == Prepend(drafts, Read(rules, file.content, stamp, reached))
  }

  /** `drafts` and `reached` are that read, whole. */
  ghost predicate Completes(src: Source, file: File, from: Mark, drafts: seq<RecordDraft>, reached: Mark) {
    from.offset <= |file.content|
    && Outcome(drafts, reached) == Read(RulesOf(src), file.content, Constant(file.modified), from)
  }

  lemma {:induction false} CoversNothing(src: Source, file: File, from: Mark)
    requires from.offset <= |file.content|
    ensures Covers(src, file, from, [], from)
  {
    hide Read, RulesOf, Constant;
    var whole := Read(RulesOf(src), file.content, Constant(file.modified), from);
    assert [] + whole.drafts == whole.drafts;
  }

  /** An increment from where the last one ended covers more, and without one all is covered. */
  lemma {:induction false} CoversMore(
      src: Source, file: File, from: Mark, drafts: seq<RecordDraft>, cursor: Option<FileCursor>, b: Budget)
    requires var start := StartOf(src, file, cursor);
             start.Some? && AllPositive(b) && Covers(src, file, from, drafts, start.value.mark)
    ensures match IncrementOf(src, file, cursor, b)
            case None => Completes(src, file, from, drafts, StartOf(src, file, cursor).value.mark)
            case Some(inc) => Covers(src, file, from, drafts + inc.drafts, inc.cursor.mark)
  {
    hide Read, Scan, RulesOf, Constant, StartOf, Next;
    var rules, stamp, m := RulesOf(src), Constant(file.modified), StartOf(src, file, cursor).value.mark;
    ScanStops(rules, file.content, stamp, b, m);
    ScanThenRead(rules, file.content, stamp, b, m);
    Unfold(rules, file.content, stamp, m);
    var scan := Scan(rules, file.content, stamp, b, m.offset, m, 0, 0);
    var rest := Read(rules, file.content, stamp, scan.mark);
    assert drafts + (scan.drafts + rest.drafts) == (drafts + scan.drafts) + rest.drafts;
    assert drafts + [] == drafts;
  }

  /** An enqueue stores its cursor and numbers all its drafts. */
  lemma {:induction false} EnqueueStores(
      cfg: Config, db: Db, drafts: seq<RecordDraft>, cursor: Cursor, device: Option<string>, now: int)
    ensures var e := Enqueue(cfg, db, drafts, Some(cursor), device, now);
            e.db.cursors == db.cursors[cursor.key := cursor.value] && e.db.seqno >= db.seqno + |drafts|
  {
    hide Seal, InsertAll, Dropped;
  }

  /** An increment of a file committed: its drafts and its cursor in one transaction. */
  function Emitted(cfg: Config, db: Db, key: string, device: Option<string>, now: int, inc: Increment): Db {
    var cursor := Cursor(CursorKey(Records.ClaudeCode, key), TranscriptAt(inc.cursor));
    Enqueue(cfg, db, inc.drafts, Some(cursor), device, now).db
  }

  /** One increment after another. */
  function EmittedAll(cfg: Config, db: Db, key: string, device: Option<string>, now: int, log: seq<Increment>): Db {
    if log == [] then db
    else Emitted(cfg, EmittedAll(cfg, db, key, device, now, log[..|log| - 1]), key, device, now, log[|log| - 1])
  }

  function DraftsOf(log: seq<Increment>): seq<RecordDraft> {
    if log == [] then [] else DraftsOf(log[..|log| - 1]) + log[|log| - 1].drafts
  }

  lemma EmittedMore(
      cfg: Config, db: Db, key: string, device: Option<string>, now: int, log: seq<Increment>, inc: Increment)
    ensures DraftsOf(log + [inc]) == DraftsOf(log) + inc.drafts
    ensures EmittedAll(cfg, db, key, device, now, log + [inc])
         == Emitted(cfg, EmittedAll(cfg, db, key, device, now, log), key, device, now, inc)
  {
    hide Emitted;
    assert (log + [inc])[..|log|] == log;
  }

  /** Increments move their own cursor alone, to the last of them, and number all their drafts. */
  lemma {:induction false} EmittedKeeps(
      cfg: Config, db: Db, key: string, device: Option<string>, now: int, log: seq<Increment>)
    ensures var end := EmittedAll(cfg, db, key, device, now, log);
            && end.seqno >= db.seqno + |DraftsOf(log)|
            && end.cursors == (if log == [] then db.cursors
                               else var last := TranscriptAt(log[|log| - 1].cursor);
                                    db.cursors[CursorKey(Records.ClaudeCode, key) := last])
  {
    hide Tables.Enqueue;
    if log != [] {
      var before, inc := EmittedAll(cfg, db, key, device, now, log[..|log| - 1]), log[|log| - 1];
      EmittedKeeps(cfg, db, key, device, now, log[..|log| - 1]);
      EnqueueStores(cfg, before, inc.drafts, Cursor(CursorKey(Records.ClaudeCode, key), TranscriptAt(inc.cursor)),
          device, now);
    }
  }

  lemma NothingEmitted(cfg: Config, db: Db, key: string, device: Option<string>, now: int)
    ensures EmittedAll(cfg, db, key, device, now, []) == db && DraftsOf([]) == []
  {
  }

  /** How far shipping a file has come: the cursor is that of the last increment, and what was
      shipped and what is left are the one read from where it began. */
  ghost predicate Underway(
      src: Source, file: File, begun: Option<FileCursor>, cursor: Option<FileCursor>, log: seq<Increment>,
      reached: Mark)
  {
    && (if log == [] then begun == StartOf(src, file, cursor)
        else
          && begun.Some? && cursor == Some(log[|log| - 1].cursor) && StartOf(src, file, cursor) == cursor
          && begun.value.mark.offset < reached.offset && cursor == Some(begun.value.(mark := reached)))
    && (begun.Some? ==>
          && StartOf(src, file, cursor).Some? && reached == StartOf(src, file, cursor).value.mark
          && Covers(src, file, begun.value.mark, DraftsOf(log), reached))
  }

  lemma {:induction false} UnderwayBegins(src: Source, file: File, cursor: Option<FileCursor>) returns (reached: Mark)
    ensures Underway(src, file, StartOf(src, file, cursor), cursor, [], reached)
  {
    hide Covers, StartOf;
    var begun := StartOf(src, file, cursor);
    reached := if begun.Some? then begun.value.mark else START;
    if begun.Some? {
      CoversNothing(src, file, begun.value.mark);
    }
  }

  /** An increment carries it on, strictly further; none completes it. */
  lemma {:induction false} UnderwayGoesOn(
      src: Source, file: File, begun: Option<FileCursor>, cursor: Option<FileCursor>, log: seq<Increment>,
      reached: Mark)
    requires Underway(src, file, begun, cursor, log, reached)
    ensures match IncrementOf(src, file, cursor, READ_BUDGET)
            case Some(inc) =>
              && begun.Some? && reached.offset < inc.cursor.mark.offset <= |file.content|
              && Underway(src, file, begun, Some(inc.cursor), log + [inc], inc.cursor.mark)
            case None => begun.Some? ==> Completes(src, file, begun.value.mark, DraftsOf(log), reached)
  {
    hide Covers, Completes, IncrementOf, StartOf, DraftsOf;
    if begun.Some? {
      CoversMore(src, file, begun.value.mark, DraftsOf(log), cursor, READ_BUDGET);
    }
    var r := IncrementOf(src, file, cursor, READ_BUDGET);
    if r.Some? {
      StartsAgain(src, file, cursor, READ_BUDGET);
      IncrementKeepsFile(src, file, cursor, READ_BUDGET);
      DraftsMore(log, r.value);
    }
  }

  /** Once nothing is left, the file has shipped what it has to. */
  lemma {:induction false} UnderwayShips(
      src: Source, file: File, begun: Option<FileCursor>, first: Option<FileCursor>, cursor: Option<FileCursor>,
      log: seq<Increment>, reached: Mark)
    requires begun == StartOf(src, file, first) && Underway(src, file, begun, cursor, log, reached)
    requires log == [] ==> cursor == first
    requires IncrementOf(src, file, cursor, READ_BUDGET).None?
    ensures Ships(src, file, first, DraftsOf(log), cursor)
  {
    hide Ships, Covers, Completes, IncrementOf, StartOf;
    UnderwayGoesOn(src, file, begun, cursor, log, reached);
    ShipsWhole(src, file, first, DraftsOf(log), reached);
  }

  lemma DraftsMore(log: seq<Increment>, inc: Increment)
    ensures DraftsOf(log + [inc]) == DraftsOf(log) + inc.drafts
  {
    assert (log + [inc])[..|log|] == log;
  }

  lemma UnderwayMeans(
      src: Source, file: File, begun: Option<FileCursor>, cursor: Option<FileCursor>, log: seq<Increment>,
      reached: Mark)
    requires Underway(src, file, begun, cursor, log, reached)
    ensures begun.Some? ==> Covers(src, file, begun.value.mark, DraftsOf(log), reached)
    ensures log == [] && begun.Some? ==> reached == begun.value.mark
    ensures log != [] ==>
        begun.Some? && cursor.Some? && cursor == Some(log[|log| - 1].cursor) && reached == cursor.value.mark
  {
    hide Covers, StartOf;
  }

  // ---- What a file ships in all ----

  /** What shipping a file to its end gives, told by the file and the stored cursor: a file known by its
      inode, or an import by its head, is read on from the cursor; any other is read from the start;
      an import without a whole head, or shorter than what was read of it, is waited for. */
  ghost predicate Ships(
      src: Source, file: File, cursor: Option<FileCursor>, drafts: seq<RecordDraft>, left: Option<FileCursor>)
  {
    var rules, content, stamp := RulesOf(src), file.content, Constant(file.modified);
    var head := HeadDigest(src.hash, content);
    if src.identity.Head? && (head.None? || (KnownBy(src, file, cursor) && |content| < cursor.value.mark.offset)) then
      drafts == [] && left == cursor
    else
      var known := KnownBy(src, file, cursor) && cursor.value.mark.offset <= |content|;
      var read := if known then Read(rules, content, stamp, cursor.value.mark)
          else Told(rules, content, stamp, 0, None);
      var kept := if src.identity.Head? then head else if known then cursor.value.head else None;
      && drafts == read.drafts
      && left == if read.mark.offset == (if known then cursor.value.mark.offset else 0) then cursor
                 else Some(FileCursor(file.inode, read.mark, kept))
  }

  /** The file is the one the cursor was stored for. */
  ghost predicate KnownBy(src: Source, file: File, cursor: Option<FileCursor>) {
    cursor.Some? &&
    match src.identity
    case Inode => cursor.value.inode == file.inode
    case Head => cursor.value.head.Some? && cursor.value.head == HeadDigest(src.hash, file.content)
  }

  /** The cursor left by a file read from `start` to `reached`. */
  function Left(cursor: Option<FileCursor>, start: FileCursor, reached: Mark): Option<FileCursor> {
    if reached.offset == start.mark.offset then cursor else Some(start.(mark := reached))
  }

  lemma {:induction false} ShipsWhole(
      src: Source, file: File, cursor: Option<FileCursor>, drafts: seq<RecordDraft>, reached: Mark)
    requires match StartOf(src, file, cursor)
             case None => drafts == []
             case Some(start) => Completes(src, file, start.mark, drafts, reached)
    ensures var start := StartOf(src, file, cursor);
            Ships(src, file, cursor, drafts, if start.Some? then Left(cursor, start.value, reached) else cursor)
  {
    hide Read, Told, RulesOf, HeadDigest;
    ReadIsParse(RulesOf(src), file.content, Constant(file.modified), 0, None);
  }

  /** Increments of a file until there is none. */
  function Drained(
      src: Source, file: File, cursor: Option<FileCursor>, b: Budget): (seq<RecordDraft>, Option<FileCursor>)
    decreases var start := StartOf(src, file, cursor); if start.Some? then |file.content| - start.value.mark.offset
        else 0
  {
    match IncrementOf(src, file, cursor, b)
    case None => ([], cursor)
    case Some(inc) =>
      StartsAgain(src, file, cursor, b);
      var rest := Drained(src, file, Some(inc.cursor), b);
      (inc.drafts + rest.0, rest.1)
  }

  lemma {:induction false} DrainedWhole(src: Source, file: File, cursor: Option<FileCursor>, b: Budget)
      returns (reached: Mark)
    requires AllPositive(b) && StartOf(src, file, cursor).Some?
    ensures var start, d := StartOf(src, file, cursor).value, Drained(src, file, cursor, b);
            && start.mark.offset <= reached.offset
            && Completes(src, file, start.mark, d.0, reached) && d.1 == Left(cursor, start, reached)
    decreases |file.content| - StartOf(src, file, cursor).value.mark.offset
  {
    hide Completes, Covers, StartOf, IncrementOf;
    var start := StartOf(src, file, cursor).value;
    CoversNothing(src, file, start.mark);
    CoversMore(src, file, start.mark, [], cursor, b);
    var r := IncrementOf(src, file, cursor, b);
    if r.None? {
      return start.mark;
    }
    StartsAgain(src, file, cursor, b);
    IncrementKeepsFile(src, file, cursor, b);
    assert [] + r.value.drafts == r.value.drafts;
    reached := DrainedWhole(src, file, Some(r.value.cursor), b);
    CoversThenCompletes(src, file, start.mark, r.value.drafts, r.value.cursor.mark,
                        Drained(src, file, Some(r.value.cursor), b).0, reached);
    CompletesAt(src, file, r.value.cursor.mark, Drained(src, file, Some(r.value.cursor), b).0, reached);
  }

  /** A read that ends where it begins changes nothing of its mark. */
  lemma {:induction false} CompletesAt(src: Source, file: File, from: Mark, drafts: seq<RecordDraft>, reached: Mark)
    requires Completes(src, file, from, drafts, reached)
    ensures reached.offset == from.offset ==> reached == from
  {
    hide RulesOf, Constant;
  }

  lemma {:induction false} IncrementKeepsFile(src: Source, file: File, cursor: Option<FileCursor>, b: Budget)
    requires IncrementOf(src, file, cursor, b).Some?
    ensures var inc, start := IncrementOf(src, file, cursor, b).value, StartOf(src, file, cursor);
            start.Some? && inc.cursor == start.value.(mark := inc.cursor.mark)
  {
    StartsAgain(src, file, cursor, b);
  }

  lemma {:induction false} CoversThenCompletes(
      src: Source, file: File, from: Mark, drafts: seq<RecordDraft>, mid: Mark, more: seq<RecordDraft>, reached: Mark)
    requires Covers(src, file, from, drafts, mid) && Completes(src, file, mid, more, reached)
    ensures Completes(src, file, from, drafts + more, reached)
  {
    hide Read, RulesOf, Constant;
  }

  lemma NothingWithoutStart(src: Source, file: File, cursor: Option<FileCursor>, b: Budget)
    requires StartOf(src, file, cursor).None?
    ensures IncrementOf(src, file, cursor, b).None?
  {
  }

  /** A file polled until nothing is left ships just that, whatever cursor was stored and however the
      work is sliced: a replaced or truncated file from its start, a known one from its cursor. */
  lemma {:induction false} DrainsExactly(src: Source, file: File, cursor: Option<FileCursor>, b: Budget)
    requires AllPositive(b)
    ensures var d := Drained(src, file, cursor, b);
            Ships(src, file, cursor, d.0, d.1)
  {
    hide Ships, StartOf, Completes, IncrementOf;
    var d, reached := Drained(src, file, cursor, b), START;
    if StartOf(src, file, cursor).Some? {
      reached := DrainedWhole(src, file, cursor, b);
    } else {
      NothingWithoutStart(src, file, cursor, b);
    }
    ShipsWhole(src, file, cursor, d.0, reached);
  }

  /** What an emission adds to the queue are the records of its drafts, under their device, or a marker. */
  lemma {:induction false} EmittedRows(
      cfg: Config, db: Db, key: string, device: Option<string>, now: int, inc: Increment, r: Row)
      returns (i: nat)
    requires r in Emitted(cfg, db, key, device, now, inc).pending && r !in db.pending
    requires r.envelope.draft.kind != BufferOverflow
    ensures i < |inc.drafts| && SealedAs(cfg, device, inc.drafts[i], db.seqno + 1 + i, r.envelope)
  {
    hide Tables.Enqueue;
    var stored := Cursor(CursorKey(Records.ClaudeCode, key), TranscriptAt(inc.cursor));
    EnqueueExactly(cfg, db, inc.drafts, Some(stored), device, now);
    var e := Tables.Enqueue(cfg, db, inc.drafts, Some(stored), device, now);
    var rows, p := Before(e), |db.pending|;
    var j :| 0 <= j < |e.db.pending| && e.db.pending[j] == r;
    if e.dropped != [] {
      assert j < |e.db.pending| - 1;
    }
    var k := |e.dropped| + j;
    assert rows[k] == r;
    assert forall l :: 0 <= l < p ==> rows[l] == rows[..p][l] == db.pending[l];
    i := k - p;
    assert StoredAs(cfg, rows, p + i, e.sealed[i], now);
  }

  class Provider {
    const buffer: Buffer
    var known: map<string, Option<FileCursor>>

    constructor (buffer: Buffer)
      ensures this.buffer == buffer && known == map[]
    {
      this.buffer, known := buffer, map[];
    }

    function StoredAt(key: string): Option<FileCursor>
      reads buffer
    {
      var at := CursorKey(Records.ClaudeCode, key);
      if at in buffer.cursors && buffer.cursors[at].TranscriptAt? then Some(buffer.cursors[at].at) else None
    }

    /** What is remembered of a cursor is what is stored. */
    ghost predicate Remembers(key: string)
      reads this, buffer
    {
      key in known ==> known[key] == StoredAt(key)
    }

    /** The remembered cursor, or the stored one, which is remembered from then on. */
    method CursorFor(key: string) returns (cursor: Option<FileCursor>)
      requires Remembers(key)
      modifies this
      ensures cursor == StoredAt(key) && known == old(known)[key := cursor]
    {
      if key in known {
        cursor := known[key];
        assert known == known[key := cursor];
        return;
      }
      var stored := buffer.ReadCursor(CursorKey(Records.ClaudeCode, key));
      cursor := if stored.Some? && stored.value.TranscriptAt? then Some(stored.value.at) else None;
      known := known[key := cursor];
    }

    /** One pass: reads an increment and, if there is one, emits it; the cursor is remembered only on
        the buffer's receipt. */
    method ShipIncrement(
        key: string, device: Option<string>, src: Source, file: File, cursor: Option<FileCursor>, commits: bool,
        chunk: nat -> nat, now: int)
        returns (found: Option<Increment>, received: bool)
      requires buffer.Valid()
      modifies this, buffer
      ensures buffer.Valid() && found == IncrementOf(src, file, cursor, READ_BUDGET)
      ensures received <==> found.Some? && commits
      ensures found == IncrementOf(src, file, cursor, Budget(500, 4_194_304, 33_554_432))
      ensures if received
              then buffer.Contents() == Emitted(buffer.cfg, old(buffer.Contents()), key, device, now, found.value)
                   && known == old(known)[key := Some(found.value.cursor)]
              else buffer.Contents() == old(buffer.Contents()) && known == old(known)
    {
      hide IncrementOf, Tables.Enqueue, Ordered;
      found := ReadIncrement(src, file, cursor, READ_BUDGET, chunk);
      if found.None? {
        return found, false;
      }
      var stored := Cursor(CursorKey(Records.ClaudeCode, key), TranscriptAt(found.value.cursor));
      var receipt := buffer.Enqueue(found.value.drafts, Some(stored), device, now, commits);
      if receipt.None? {
        return found, false;
      }
      known := known[key := Some(found.value.cursor)];
      received := true;
    }

    /** Ships a file that does not change meanwhile: emission by emission until nothing is left or
        the buffer refuses one. `commits` says which emissions the buffer takes. Whatever the
        slicing, what was shipped followed by what is left is the one read from the stored cursor;
        memory, the stored cursor and the mark reached stay equal, and no other cursor changes. What
        was shipped is in the buffer as the increments of `log` left it there, one transaction each. */
    method ShipFile(
        path: string, device: Option<string>, src: Source, file: File, commits: nat -> bool, chunk: nat -> nat,
        now: int)
        returns (shipped: seq<RecordDraft>, emissions: nat, finished: bool, ghost log: seq<Increment>)
      requires buffer.Valid() && Remembers(CursorKeys.TranscriptKey(path, device))
      modifies this, buffer
      ensures buffer.Valid()
      ensures |log| == emissions && shipped == DraftsOf(log)
      ensures buffer.Contents()
          == EmittedAll(buffer.cfg, old(buffer.Contents()), CursorKeys.TranscriptKey(path, device), device, now, log)
      ensures (forall i :: 0 <= i < emissions ==> commits(i)) && (!finished ==> !commits(emissions))
      ensures var key := CursorKeys.TranscriptKey(path, device);
              var begun := StartOf(src, file, old(StoredAt(key)));
              && known == old(known)[key := StoredAt(key)]
              && (begun.None? ==> finished && emissions == 0)
              && (emissions == 0 ==> shipped == [] && buffer.Contents() == old(buffer.Contents()))
              && (emissions > 0 ==>
                    && StoredAt(key).Some?
                    && var stored := TranscriptAt(StoredAt(key).value);
                       buffer.cursors == old(buffer.cursors)[CursorKey(Records.ClaudeCode, key) := stored])
              && buffer.seqno >= old(buffer.seqno) + |shipped|
              && (finished ==> Ships(src, file, old(StoredAt(key)), shipped, StoredAt(key)))
              && (begun.Some? ==>
                    var reached := if emissions > 0 then StoredAt(key).value.mark else begun.value.mark;
                    && Covers(src, file, begun.value.mark, shipped, reached)
                    && (finished ==> Completes(src, file, begun.value.mark, shipped, reached)))
    {
      hide Covers, Completes, IncrementOf, StartOf, Emitted, CursorKeys.TranscriptKey, Tables.Ordered, EmittedAll,
           DraftsOf, Underway, Ships;
      var key := CursorKeys.TranscriptKey(path, device);
      var cursor := CursorFor(key);
      ghost var was, begun, first := buffer.Contents(), StartOf(src, file, cursor), cursor;
      ghost var reached := UnderwayBegins(src, file, cursor);
      shipped, emissions, finished, log := [], 0, false, [];
      NothingEmitted(buffer.cfg, was, key, device, now);
      while true
        invariant buffer.Valid() && forall i :: 0 <= i < emissions ==> commits(i)
        invariant |log| == emissions && shipped == DraftsOf(log)
        invariant buffer.Contents() == EmittedAll(buffer.cfg, was, key, device, now, log)
        invariant cursor == StoredAt(key) && known == old(known)[key := cursor]
        invariant Underway(src, file, begun, cursor, log, reached) && (log == [] ==> cursor == first)
        decreases |file.content| - reached.offset
      {
        UnderwayGoesOn(src, file, begun, cursor, log, reached);
        UnderwayMeans(src, file, begun, cursor, log, reached);
        EmittedKeeps(buffer.cfg, was, key, device, now, log);
        NothingEmitted(buffer.cfg, was, key, device, now);
        var increment, received := ShipIncrement(key, device, src, file, cursor, commits(emissions), chunk, now);
        if !received {
          finished := increment.None?;
          if finished {
            UnderwayShips(src, file, begun, first, cursor, log, reached);
          }
          return;
        }
        EmittedMore(buffer.cfg, was, key, device, now, log, increment.value);
        log := log + [increment.value];
        EmittedKeeps(buffer.cfg, was, key, device, now, log);
        cursor := Some(increment.value.cursor);
        emissions := emissions + 1;
        shipped := shipped + increment.value.drafts;
        reached := increment.value.cursor.mark;
      }
    }
  }

  /** A cursor just produced is taken up as it is on the same file. */
  lemma {:induction false} StartsAgain(src: Source, file: File, cursor: Option<FileCursor>, b: Budget)
    requires IncrementOf(src, file, cursor, b).Some?
    ensures var inc := IncrementOf(src, file, cursor, b).value;
            var start := StartOf(src, file, cursor);
            && start.Some? && start.value.mark.offset < inc.cursor.mark.offset <= |file.content|
            && StartOf(src, file, Some(inc.cursor)) == Some(inc.cursor)
  {
    hide Scan, RulesOf, Constant, HeadDigest;
  }
}
