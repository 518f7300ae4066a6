/** The queue and the shipper as one machine: enqueues may fall between taking a batch and
    settling it, a transaction may be refused, and the process may restart at any point
    (src/runtime/buffer.rs and src/runtime/ship.rs together). */
module Delivery {
  import opened Options
  import opened Records
  import opened Tables
  import opened BufferOwner
  import opened Shipping
  import Keys

  /** A record ever sealed, with the cursor that was committed beside it. */
  datatype Sealed = Sealed(envelope: Envelope, from: Option<CursorKey>)

  /** What happened to records over the whole run, by sequence number. */
  datatype Ledger = Ledger(sealed: seq<Sealed>, delivered: set<nat>, buried: set<nat>, evicted: set<nat>)

  /** The stored tables, the batch a post is out for, if any, and the shipper's batch size. */
  datatype World = World(db: Db, batch: seq<Row>, batchSize: nat, ledger: Ledger)

  const FRESH := World(EMPTY, [], MAX_BATCH, Ledger([], {}, {}, {}))

  datatype Step =
    | Submit(drafts: seq<RecordDraft>, cursor: Option<Cursor>, device: Option<string>, now: int, commits: bool)
    | Take
    | Respond(answer: Answer, at: int)
    | Restart

  function Seqs(rows: seq<Row>): set<nat> {
    set r | r in rows :: r.envelope.seqno
  }

  function Tagged(sealed: seq<Envelope>, n: nat, cursor: Option<Cursor>): seq<Sealed> {
    seq(|sealed|, i requires 0 <= i < |sealed| =>
      Sealed(sealed[i], if i < n && cursor.Some? then Some(cursor.value.key) else None))
  }

  function ApplySubmit(cfg: Config, w: World, s: Step): World
    requires s.Submit?
  {
    if !s.commits then w
    else
      var e := Enqueue(cfg, w.db, s.drafts, s.cursor, s.device, s.now);
      w.(db := e.db,
         ledger := w.ledger.(sealed := w.ledger.sealed + Tagged(e.sealed, |s.drafts|, s.cursor),
                             evicted := w.ledger.evicted + Seqs(e.dropped)))
  }

  function ApplyRespond(w: World, s: Step): World
    requires s.Respond?
  {
    var r := Settle(w.db, w.batch, w.batchSize, s.answer, s.at);
    World(r.db, [], r.batchSize,
          if r.progress.Shipped? then w.ledger.(delivered := w.ledger.delivered + Seqs(w.batch))
          else if r.progress.DeadLettered? then w.ledger.(buried := w.ledger.buried + Seqs(w.batch))
          else w.ledger)
  }

  /** One step; a take or an answer out of turn does nothing, as there is one shipper. */
  function Apply(cfg: Config, w: World, s: Step): World {
    match s
    case Submit(_, _, _, _, _) => ApplySubmit(cfg, w, s)
    case Take => if w.batch == [] then w.(batch := Batch(w.db, w.batchSize)) else w
    case Respond(_, _) => if w.batch == [] then w else ApplyRespond(w, s)
    case Restart => w.(batch := [], batchSize := MAX_BATCH)
  }

  function Run(cfg: Config, w: World, steps: seq<Step>): World
    decreases |steps|
  {
    if steps == [] then w else Run(cfg, Apply(cfg, w, steps[0]), steps[1..])
  }

  // ---- Id reuse ----

  /** Some id of the batch names a record other than the one posted. */
  ghost predicate NamesAnother(batch: seq<Row>, pending: seq<Row>) {
    exists b, r :: b in batch && r in pending && b.id == r.id && b != r
  }

  /** No id of the batch can come to name another record: none does now, and the next id to be
      given is past them all. */
  ghost predicate Guarded(batch: seq<Row>, pending: seq<Row>) {
    batch != [] ==>
      && pending != []
      && !NamesAnother(batch, pending)
      && (forall b :: b in batch ==> b.id <= pending[|pending| - 1].id)
  }

  /** The oldest rows go until none is left: the table is over its caps and even its newest row
      alone is over the eviction targets. */
  predicate EvictsAll(cfg: Config, rows: seq<Row>) {
    rows != [] && !Fits(rows, cfg.caps) && !Fits([rows[|rows| - 1]], PendingTargets(cfg.caps))
  }

  lemma {:induction false} DropsAllExactly(cfg: Config, rows: seq<Row>)
    requires rows != []
    ensures Dropped(rows, cfg.caps, PendingTargets(cfg.caps)) == |rows| <==> EvictsAll(cfg, rows)
  {
    var targets := PendingTargets(cfg.caps);
    var n := Plan(rows, targets);
    var last := |rows| - 1;
    PlanIsShortest(rows, targets);
    assert rows[last..] == [rows[last]];
    if n <= last {
      assert rows[n..][last - n..] == rows[last..];
      TotalSuffix(rows[n..], last - n);
    }
  }

  /** For valid caps: the table may hold a single row, or the newest row alone fills it. */
  lemma {:induction false} EvictsAllByCaps(cfg: Config, rows: seq<Row>)
    requires ValidCaps(cfg.caps) && rows != [] && !Fits(rows, cfg.caps)
    ensures EvictsAll(cfg, rows) <==>
            cfg.caps.maxRows == 1 || rows[|rows| - 1].bytes > cfg.caps.maxBytes - OVERFLOW_HEADROOM_BYTES
  {
    var last := rows[|rows| - 1];
    assert [last][1..] == [];
    assert Total([last]) == last.bytes;
  }

  /** Inserted rows follow the old ones under the next ids. */
  lemma {:induction false} InsertAllRows(cfg: Config, rows: seq<Row>, envelopes: seq<Envelope>, at: int)
    requires Ordered(rows)
    ensures var all := InsertAll(cfg, rows, envelopes, at);
            && |all| == |rows| + |envelopes| && all[..|rows|] == rows && Ordered(all)
            && (forall i :: |rows| <= i < |all| ==> all[i].envelope == envelopes[i - |rows|])
            && (forall i :: |rows| <= i < |all| ==> all[i].id >= NextId(rows))
    decreases |envelopes|
  {
    if envelopes != [] {
      var more := Insert(rows, envelopes[0], cfg.size(envelopes[0]), at);
      InsertAllRows(cfg, more, envelopes[1..], at);
      var all := InsertAll(cfg, rows, envelopes, at);
      assert all[..|rows|] == all[..|rows| + 1][..|rows|];
      assert all[|rows|] == all[..|rows| + 1][|rows|];
      forall i | |rows| <= i < |all|
        ensures all[i].envelope == envelopes[i - |rows|]
      {
        if i > |rows| {
          assert envelopes[i - |rows|] == envelopes[1..][i - |rows| - 1];
        }
      }
    }
  }

  // ---- What every run keeps ----

  /** Each row carries the envelope that was sealed under its number. */
  ghost predicate Genuine(rows: seq<Row>, sealed: seq<Sealed>) {
    forall r :: r in rows ==> 1 <= r.envelope.seqno <= |sealed| && sealed[r.envelope.seqno - 1].envelope == r.envelope
  }

  /** The counter is the number of records ever sealed, and they are numbered from 1 without gaps. */
  ghost predicate Numbered(sealed: seq<Sealed>, seqno: nat) {
    |sealed| == seqno && forall i :: 0 <= i < |sealed| ==> sealed[i].envelope.seqno == i + 1
  }

  predicate Between(from: nat, q: nat, to: nat) { from <= q <= to }

  function Numbers(from: nat, to: nat): set<nat> {
    set q: nat | q <= to && Between(from, q, to)
  }

  /** No record is counted twice, except that one evicted while its batch was out may be delivered
      or buried as well. A batch that is out is settled nowhere yet. */
  ghost predicate Tallied(
      queued: set<nat>, out: set<nat>, seqno: nat, delivered: set<nat>, buried: set<nat>, evicted: set<nat>)
  {
    && queued + delivered + buried + evicted <= Numbers(1, seqno)
    && queued !! delivered + buried + evicted
    && delivered !! buried
    && out <= queued + evicted && out !! delivered + buried
  }

  ghost predicate Accounted(w: World) {
    Tallied(Seqs(w.db.pending), Seqs(w.batch), w.db.seqno, w.ledger.delivered, w.ledger.buried, w.ledger.evicted)
  }

  function Absent(queued: set<nat>, seqno: nat, delivered: set<nat>, buried: set<nat>, evicted: set<nat>): set<nat> {
    Numbers(1, seqno) - queued - delivered - buried - evicted
  }

  /** The records ever sealed that are nowhere: not queued, delivered, buried or evicted. */
  function Missing(w: World): set<nat> {
    Absent(Seqs(w.db.pending), w.db.seqno, w.ledger.delivered, w.ledger.buried, w.ledger.evicted)
  }

  /** Rows of one number are one row. */
  ghost predicate SameNumbered(batch: seq<Row>, pending: seq<Row>) {
    forall x, y :: x in batch && y in pending && x.envelope.seqno == y.envelope.seqno ==> x == y
  }

  /** What every run keeps, whatever is evicted when: the counter is the number of records ever
      sealed, the queue is in their order and made of them, so is the batch, and the tally holds. */
  ghost predicate Inv(w: World) {
    && Numbered(w.ledger.sealed, w.db.seqno)
    && Ordered(w.db.pending) && SeqOrdered(w.db.pending)
    && Genuine(w.db.pending, w.ledger.sealed) && Genuine(w.batch, w.ledger.sealed)
    && Ordered(w.batch) && SameNumbered(w.batch, w.db.pending)
    && |w.batch| <= w.batchSize && MIN_BATCH <= w.batchSize <= MAX_BATCH
    && Accounted(w)
  }

  /** The rows of an enqueue before eviction: the queue, then the new records in order. */
  lemma {:induction false} InsertedRows(cfg: Config, db: Db, drafts: seq<RecordDraft>, device: Option<string>, now: int)
    requires Ordered(db.pending) && SeqOrdered(db.pending)
    requires forall r :: r in db.pending ==> r.envelope.seqno <= db.seqno
    ensures var rows := Inserted(cfg, db, drafts, device, now);
            var sealed := Seal(cfg, device.GetOr(cfg.device), drafts, db.seqno);
            && Ordered(rows) && SeqOrdered(rows)
            && |rows| == |db.pending| + |drafts| && rows[..|db.pending|] == db.pending
            && (forall i :: |db.pending| <= i < |rows| ==>
                rows[i].envelope == sealed[i - |db.pending|] && rows[i].id >= NextId(db.pending))
  {
    var sealed := Seal(cfg, device.GetOr(cfg.device), drafts, db.seqno);
    var rows := Inserted(cfg, db, drafts, device, now);
    InsertAllRows(cfg, db.pending, sealed, now);
    var p := |db.pending|;
    forall i, j | 0 <= i < j < |rows|
      ensures rows[i].envelope.seqno < rows[j].envelope.seqno
    {
      if i < p {
        assert rows[i] == rows[..p][i] == db.pending[i];
        assert rows[i] in db.pending;
      }
      if j < p {
        assert rows[j] == rows[..p][j] == db.pending[j];
      }
    }
  }

  lemma {:induction false} SeqsSplit(rows: seq<Row>, n: nat)
    requires n <= |rows| && SeqOrdered(rows)
    ensures Seqs(rows[..n]) + Seqs(rows[n..]) == Seqs(rows)
    ensures Seqs(rows[..n]) !! Seqs(rows[n..])
  {
    assert rows == rows[..n] + rows[n..];
    forall x, y | x in rows[..n] && y in rows[n..]
      ensures x.envelope.seqno < y.envelope.seqno
    {
      var i :| 0 <= i < n && rows[i] == x;
      var j :| n <= j < |rows| && rows[j] == y;
    }
  }

  /** The numbers of the rows before eviction are those queued and the new ones. */
  lemma {:induction false} InsertedSeqs(cfg: Config, db: Db, drafts: seq<RecordDraft>, device: Option<string>, now: int)
    requires Ordered(db.pending) && SeqOrdered(db.pending)
    requires forall r :: r in db.pending ==> r.envelope.seqno <= db.seqno
    ensures Seqs(Inserted(cfg, db, drafts, device, now))
        == Seqs(db.pending) + Numbers(db.seqno + 1, db.seqno + |drafts|)
  {
    hide Seal, Inserted, Ordered, SeqOrdered, Seqs;
    InsertedRows(cfg, db, drafts, device, now);
    var rows := Inserted(cfg, db, drafts, device, now);
    var p := |db.pending|;
    SeqsSplit(rows, p);
    var added := rows[p..];
    assert forall i :: 0 <= i < |drafts| ==> added[i] == rows[p + i];
    ConsecutiveSeqs(added, db.seqno + 1);
  }

  lemma {:induction false} ConsecutiveSeqs(rows: seq<Row>, first: nat)
    requires first > 0 && forall i :: 0 <= i < |rows| ==> rows[i].envelope.seqno == first + i
    ensures Seqs(rows) == Numbers(first, first + |rows| - 1)
  {
    forall q | q in Numbers(first, first + |rows| - 1)
      ensures q in Seqs(rows)
    {
      assert rows[q - first] in rows;
    }
  }

  /** The newest sealed records are the drafts, in order, then the marker of an eviction. */
  lemma {:induction false} SubmitNumbered(cfg: Config, w: World, s: Step)
    requires s.Submit? && s.commits && Numbered(w.ledger.sealed, w.db.seqno)
    ensures var w' := ApplySubmit(cfg, w, s);
            && Numbered(w'.ledger.sealed, w'.db.seqno)
            && w.ledger.sealed <= w'.ledger.sealed
  {
    hide InsertAll, Dropped, SealOne;
    var e := Enqueue(cfg, w.db, s.drafts, s.cursor, s.device, s.now);
    var tagged := Tagged(e.sealed, |s.drafts|, s.cursor);
    assert forall i :: 0 <= i < |tagged| ==> tagged[i].envelope == e.sealed[i];
    SealedNumbers(cfg, w.db, s);
  }

  lemma {:induction false} SealedNumbers(cfg: Config, db: Db, s: Step)
    requires s.Submit?
    ensures var e := Enqueue(cfg, db, s.drafts, s.cursor, s.device, s.now);
            && |e.sealed| == e.db.seqno - db.seqno
            && (forall i :: 0 <= i < |e.sealed| ==> e.sealed[i].seqno == db.seqno + 1 + i)
            && (forall i :: 0 <= i < |s.drafts| ==>
                e.sealed[i] == Seal(cfg, s.device.GetOr(cfg.device), s.drafts, db.seqno)[i])
            && |e.sealed| == |s.drafts| + (if e.dropped == [] then 0 else 1)
  {
    hide InsertAll, Dropped, Plan;
  }

  /** A table in order, of sealed records. */
  ghost predicate Sound(rows: seq<Row>, sealed: seq<Sealed>) {
    Ordered(rows) && SeqOrdered(rows) && Genuine(rows, sealed)
  }

  lemma {:induction false} SoundSuffix(rows: seq<Row>, sealed: seq<Sealed>, n: nat)
    requires Sound(rows, sealed) && n <= |rows|
    ensures Sound(rows[n..], sealed)
  {
  }

  lemma {:induction false} SoundInsert(rows: seq<Row>, sealed: seq<Sealed>, envelope: Envelope, bytes: nat, at: int)
    requires Sound(rows, sealed) && sealed != [] && envelope.seqno == |sealed|
        && sealed[|sealed| - 1].envelope == envelope
    requires forall r :: r in rows ==> r.envelope.seqno < |sealed|
    ensures Sound(Insert(rows, envelope, bytes, at), sealed)
  {
    hide Genuine, SeqOrdered, Ordered, Insert;
    InsertOrdered(rows, envelope, bytes, at);
    InsertSeqOrdered(rows, envelope, bytes, at);
    InsertGenuine(rows, sealed, envelope, bytes, at);
  }

  lemma {:induction false} InsertSeqOrdered(rows: seq<Row>, envelope: Envelope, bytes: nat, at: int)
    requires SeqOrdered(rows) && forall r :: r in rows ==> r.envelope.seqno < envelope.seqno
    ensures SeqOrdered(Insert(rows, envelope, bytes, at))
  {
    assert forall i :: 0 <= i < |rows| ==> rows[i] in rows;
  }

  lemma {:induction false} InsertGenuine(
      rows: seq<Row>, sealed: seq<Sealed>, envelope: Envelope, bytes: nat, at: int)
    requires Genuine(rows, sealed) && 1 <= envelope.seqno <= |sealed| && sealed[envelope.seqno - 1].envelope == envelope
    ensures Genuine(Insert(rows, envelope, bytes, at), sealed)
  {
  }

  /** Being sealed stays so as more is sealed. */
  lemma {:induction false} GenuineStays(rows: seq<Row>, sealed: seq<Sealed>, more: seq<Sealed>)
    requires Genuine(rows, sealed) && sealed <= more
    ensures Genuine(rows, more)
    ensures forall r :: r in rows ==> r.envelope.seqno <= |sealed|
  {
  }

  /** The inserted rows carry the newest sealed records. */
  lemma {:induction false} InsertedSealed(cfg: Config, w: World, s: Step)
    requires Inv(w) && s.Submit? && s.commits
    ensures var rows := Inserted(cfg, w.db, s.drafts, s.device, s.now);
            var sealed := ApplySubmit(cfg, w, s).ledger.sealed;
            var p := |w.db.pending|;
            && |rows| == p + |s.drafts| && |sealed| >= w.db.seqno + |s.drafts|
            && forall i :: p <= i < |rows| ==>
                 rows[i].envelope.seqno == w.db.seqno + 1 + i - p
                     && sealed[w.db.seqno + i - p].envelope == rows[i].envelope
  {
    hide InsertAll, Dropped, Seal, Enqueue, Inv, Fits, Ordered, SeqOrdered, Inserted, Genuine, Numbered, ApplySubmit;
    var e := Enqueue(cfg, w.db, s.drafts, s.cursor, s.device, s.now);
    var rows := Inserted(cfg, w.db, s.drafts, s.device, s.now);
    var sealed := ApplySubmit(cfg, w, s).ledger.sealed;
    SubmitLength(cfg, w, s);
    QueueParts(w);
    InsertedRows(cfg, w.db, s.drafts, s.device, s.now);
    SealedNumbers(cfg, w.db, s);
    var p := |w.db.pending|;
    forall i | p <= i < |rows|
      ensures rows[i].envelope.seqno == w.db.seqno + 1 + i - p
      ensures sealed[w.db.seqno + i - p].envelope == rows[i].envelope
    {
      assert rows[i].envelope == e.sealed[i - p];
      SubmitSealedAt(cfg, w, s, i - p);
    }
  }

  /** What an enqueue seals comes after all that was sealed. */
  lemma {:induction false} SubmitSealedAt(cfg: Config, w: World, s: Step, k: nat)
    requires s.Submit? && s.commits && |w.ledger.sealed| == w.db.seqno
    requires k < |Enqueue(cfg, w.db, s.drafts, s.cursor, s.device, s.now).sealed|
    ensures var sealed := ApplySubmit(cfg, w, s).ledger.sealed;
            && w.db.seqno + k < |sealed|
            && sealed[w.db.seqno + k].envelope == Enqueue(cfg, w.db, s.drafts, s.cursor, s.device, s.now).sealed[k]
  {
    hide Enqueue;
    var e := Enqueue(cfg, w.db, s.drafts, s.cursor, s.device, s.now);
    assert ApplySubmit(cfg, w, s).ledger.sealed[w.db.seqno + k] == Tagged(e.sealed, |s.drafts|, s.cursor)[k];
  }

  lemma {:induction false} SubmitLength(cfg: Config, w: World, s: Step)
    requires s.Submit? && s.commits
    ensures var e := Enqueue(cfg, w.db, s.drafts, s.cursor, s.device, s.now);
            |ApplySubmit(cfg, w, s).ledger.sealed| == |w.ledger.sealed| + |e.sealed|
  {
    hide Enqueue;
  }

  lemma {:induction false} InsertedSound(cfg: Config, w: World, s: Step)
    requires Inv(w) && s.Submit? && s.commits
    ensures var rows := Inserted(cfg, w.db, s.drafts, s.device, s.now);
            && Sound(rows, ApplySubmit(cfg, w, s).ledger.sealed)
            && forall r :: r in rows ==> r.envelope.seqno <= w.db.seqno + |s.drafts|
  {
    hide InsertAll, Dropped, Seal, Enqueue, Inv, Fits, Ordered, SeqOrdered, Inserted, Genuine, Numbered, ApplySubmit;
    var rows := Inserted(cfg, w.db, s.drafts, s.device, s.now);
    var sealed := ApplySubmit(cfg, w, s).ledger.sealed;
    QueueParts(w);
    InsertedRows(cfg, w.db, s.drafts, s.device, s.now);
    SubmitNumbered(cfg, w, s);
    GenuineStays(w.db.pending, w.ledger.sealed, sealed);
    InsertedSealed(cfg, w, s);
    GenuineAppend(rows, |w.db.pending|, sealed, w.db.seqno);
  }

  lemma {:induction false} QueueParts(w: World)
    requires Inv(w)
    ensures Numbered(w.ledger.sealed, w.db.seqno) && |w.ledger.sealed| == w.db.seqno
    ensures Ordered(w.db.pending) && SeqOrdered(w.db.pending) && Genuine(w.db.pending, w.ledger.sealed)
    ensures forall r :: r in w.db.pending ==> r.envelope.seqno <= w.db.seqno
  {
  }

  lemma {:induction false} GenuineAppend(rows: seq<Row>, p: nat, sealed: seq<Sealed>, seqno: nat)
    requires p <= |rows| && seqno + |rows| - p <= |sealed|
    requires Genuine(rows[..p], sealed) && forall r :: r in rows[..p] ==> r.envelope.seqno <= seqno
    requires forall i :: p <= i < |rows| ==> rows[i].envelope.seqno == seqno + 1 + i - p
    requires forall i :: p <= i < |rows| ==> sealed[seqno + i - p].envelope == rows[i].envelope
    ensures Genuine(rows, sealed)
    ensures forall r :: r in rows ==> r.envelope.seqno <= seqno + |rows| - p
  {
    forall r | r in rows
      ensures 1 <= r.envelope.seqno <= seqno + |rows| - p && sealed[r.envelope.seqno - 1].envelope == r.envelope
    {
      var i :| 0 <= i < |rows| && rows[i] == r;
      if i < p {
        assert rows[..p][i] in rows[..p];
      }
    }
  }

  /** The queue stays in order and made of sealed records. */
  lemma {:induction false} SubmitRows(cfg: Config, w: World, s: Step)
    requires Inv(w) && s.Submit? && s.commits
    ensures var w' := ApplySubmit(cfg, w, s);
            Sound(w'.db.pending, w'.ledger.sealed)
  {
    hide InsertAll, Dropped, Seal, Enqueue, Accounted, Guarded, Fits, Sound, Genuine, Ordered, SeqOrdered;
    var e := Enqueue(cfg, w.db, s.drafts, s.cursor, s.device, s.now);
    var rows := Inserted(cfg, w.db, s.drafts, s.device, s.now);
    var sealed := ApplySubmit(cfg, w, s).ledger.sealed;
    EvictionIsShortest(cfg, w.db, s.drafts, s.cursor, s.device, s.now);
    SealedNumbers(cfg, w.db, s);
    SubmitNumbered(cfg, w, s);
    InsertedSound(cfg, w, s);
    var n := |e.dropped|;
    SoundSuffix(rows, sealed, n);
    if n > 0 {
      var marker := e.sealed[|s.drafts|];
      assert sealed[|sealed| - 1] == Tagged(e.sealed, |s.drafts|, s.cursor)[|s.drafts|];
      SoundInsert(rows[n..], sealed, marker, cfg.size(marker), s.now);
    }
  }

  /** Whether a row was queued before, or carries a new number and an id past all that were. */
  ghost predicate OldOrNew(db: Db, r: Row) {
    r in db.pending || (r.envelope.seqno > db.seqno && r.id >= NextId(db.pending))
  }

  lemma {:induction false} InsertedOldOrNew(cfg: Config, w: World, s: Step)
    requires Inv(w) && s.Submit?
    ensures var rows := Inserted(cfg, w.db, s.drafts, s.device, s.now);
            && (forall i :: 0 <= i < |rows| ==> OldOrNew(w.db, rows[i]))
            && |rows| >= |w.db.pending| && (rows != [] ==> NextId(rows) >= NextId(w.db.pending))
  {
    hide InsertAll, Accounted, Guarded, SeqOrdered;
    var rows := Inserted(cfg, w.db, s.drafts, s.device, s.now);
    InsertedRows(cfg, w.db, s.drafts, s.device, s.now);
    var p := |w.db.pending|;
    forall i | 0 <= i < |rows|
      ensures OldOrNew(w.db, rows[i])
    {
      if i < p {
        assert rows[i] == rows[..p][i] == w.db.pending[i];
      }
    }
    if p > 0 {
      assert rows[p - 1] == rows[..p][p - 1] == w.db.pending[p - 1];
    }
  }

  /** What an enqueue adds is numbered past everything sealed. Its ids are past everything queued
      too, unless the eviction left nothing: then the marker alone is there, under id 1. */
  lemma {:induction false} SubmitNewRows(cfg: Config, w: World, s: Step)
    requires Inv(w) && s.Submit? && s.commits
    ensures var rows := Inserted(cfg, w.db, s.drafts, s.device, s.now);
            var pending := ApplySubmit(cfg, w, s).db.pending;
            if EvictsAll(cfg, rows) then |pending| == 1 && pending[0].id == 1 && pending[0].envelope.seqno > w.db.seqno
            else && (forall i :: 0 <= i < |pending| ==> OldOrNew(w.db, pending[i]))
                 && (w.db.pending != [] ==> pending != [] && NextId(pending) >= NextId(w.db.pending))
  {
    hide InsertAll, Dropped, Seal, Enqueue, Inv, Fits, EvictsAll, OldOrNew, Inserted, OverflowDraft, PendingTargets;
    var e := Enqueue(cfg, w.db, s.drafts, s.cursor, s.device, s.now);
    var rows := Inserted(cfg, w.db, s.drafts, s.device, s.now);
    InsertedOldOrNew(cfg, w, s);
    EvictionIsShortest(cfg, w.db, s.drafts, s.cursor, s.device, s.now);
    SealedNumbers(cfg, w.db, s);
    DroppedCount(cfg, w.db, s);
    var n := |e.dropped|;
    if 0 < n < |rows| {
      MarkerIsNew(cfg, w, s);
      assert forall i :: n <= i < |rows| ==> rows[i] == rows[n..][i - n];
      assert rows[|rows| - 1] == rows[n..][|rows| - n - 1];
    }
  }

  lemma {:induction false} MarkerIsNew(cfg: Config, w: World, s: Step)
    requires Inv(w) && s.Submit?
    requires var e := Enqueue(cfg, w.db, s.drafts, s.cursor, s.device, s.now);
             0 < |e.dropped| < |Inserted(cfg, w.db, s.drafts, s.device, s.now)|
    ensures var pending := Enqueue(cfg, w.db, s.drafts, s.cursor, s.device, s.now).db.pending;
            pending != [] && OldOrNew(w.db, pending[|pending| - 1])
  {
    hide InsertAll, Dropped, Seal, Enqueue, Inv, Fits, EvictsAll;
    InsertedOldOrNew(cfg, w, s);
    EvictionIsShortest(cfg, w.db, s.drafts, s.cursor, s.device, s.now);
    SealedNumbers(cfg, w.db, s);
  }

  lemma {:induction false} DroppedCount(cfg: Config, db: Db, s: Step)
    requires s.Submit?
    ensures var rows := Inserted(cfg, db, s.drafts, s.device, s.now);
            var e := Enqueue(cfg, db, s.drafts, s.cursor, s.device, s.now);
            EvictsAll(cfg, rows) <==> rows != [] && |e.dropped| == |rows|
  {
    hide InsertAll, Seal, Plan, Fits;
    var rows := Inserted(cfg, db, s.drafts, s.device, s.now);
    if rows != [] {
      DropsAllExactly(cfg, rows);
    }
  }

  /** While a batch is out, an enqueue keeps every id of it from ever naming another record
      exactly when its eviction leaves some row standing. */
  lemma {:induction false} GuardedExactly(cfg: Config, w: World, s: Step)
    requires Inv(w) && Guarded(w.batch, w.db.pending) && s.Submit? && s.commits && w.batch != []
    ensures Guarded(w.batch, ApplySubmit(cfg, w, s).db.pending) <==>
            !EvictsAll(cfg, Inserted(cfg, w.db, s.drafts, s.device, s.now))
  {
    hide ApplySubmit, EvictsAll, Inserted, Accounted, SeqOrdered;
    SubmitNewRows(cfg, w, s);
    var pending := ApplySubmit(cfg, w, s).db.pending;
    assert w.batch[0] in w.batch;
  }

  /** It comes to that at once exactly when the eviction left nothing and the batch holds id 1. */
  lemma {:induction false} ReuseExactly(cfg: Config, w: World, s: Step)
    requires Inv(w) && Guarded(w.batch, w.db.pending) && s.Submit? && s.commits && w.batch != []
    ensures NamesAnother(w.batch, ApplySubmit(cfg, w, s).db.pending) <==>
            EvictsAll(cfg, Inserted(cfg, w.db, s.drafts, s.device, s.now)) && 1 in Ids(w.batch)
  {
    hide ApplySubmit, EvictsAll, Inserted, Accounted, SeqOrdered;
    SubmitNewRows(cfg, w, s);
    GuardedExactly(cfg, w, s);
    var pending := ApplySubmit(cfg, w, s).db.pending;
    if EvictsAll(cfg, Inserted(cfg, w.db, s.drafts, s.device, s.now)) && 1 in Ids(w.batch) {
      var i :| 0 <= i < |w.batch| && w.batch[i].id == 1;
      assert w.batch[i] in w.batch && pending[0] in pending;
    }
  }

  /** New numbers, queued, keep the tally. */
  lemma {:induction false} AccountAdds(
      queued: set<nat>, out: set<nat>, seqno: nat, delivered: set<nat>, buried: set<nat>, evicted: set<nat>, next: nat)
    requires Tallied(queued, out, seqno, delivered, buried, evicted) && seqno <= next
    ensures Tallied(queued + Numbers(seqno + 1, next), out, next, delivered, buried, evicted)
    ensures Absent(queued + Numbers(seqno + 1, next), next, delivered, buried, evicted)
         == Absent(queued, seqno, delivered, buried, evicted)
  {
    NumbersSplit(1, seqno, next);
  }

  /** So does counting queued records as evicted. */
  lemma {:induction false} AccountEvicts(
      queued: set<nat>, out: set<nat>, seqno: nat, delivered: set<nat>, buried: set<nat>, evicted: set<nat>,
      gone: set<nat>, left: set<nat>)
    requires Tallied(queued, out, seqno, delivered, buried, evicted)
    requires gone + left == queued && gone !! left
    ensures Tallied(left, out, seqno, delivered, buried, evicted + gone)
    ensures Absent(left, seqno, delivered, buried, evicted + gone) == Absent(queued, seqno, delivered, buried, evicted)
  {
  }

  /** An enqueue loses nothing: the new records are queued, or evicted and counted. */
  lemma {:induction false} SubmitConserves(cfg: Config, w: World, s: Step)
    requires Inv(w) && s.Submit? && s.commits
    ensures Accounted(ApplySubmit(cfg, w, s)) && Missing(ApplySubmit(cfg, w, s)) == Missing(w)
  {
    hide InsertAll, Dropped, Seal, Enqueue, SameNumbered, Fits, Ordered, Genuine, Tallied, Absent, Seqs, Numbered,
         SeqOrdered;
    var w' := ApplySubmit(cfg, w, s);
    var e := Enqueue(cfg, w.db, s.drafts, s.cursor, s.device, s.now);
    var rows := Inserted(cfg, w.db, s.drafts, s.device, s.now);
    var n := |e.dropped|;
    var Ledger(_, delivered, buried, evicted) := w.ledger;
    var out, queued, next := Seqs(w.batch), Seqs(w.db.pending), w.db.seqno + |s.drafts|;
    QueueParts(w);
    InsertedRows(cfg, w.db, s.drafts, s.device, s.now);
    InsertedSeqs(cfg, w.db, s.drafts, s.device, s.now);
    EvictionIsShortest(cfg, w.db, s.drafts, s.cursor, s.device, s.now);
    SealedNumbers(cfg, w.db, s);
    SeqsSplit(rows, n);
    AccountAdds(queued, out, w.db.seqno, delivered, buried, evicted, next);
    AccountEvicts(Seqs(rows), out, next, delivered, buried, evicted, Seqs(rows[..n]), Seqs(rows[n..]));
    if n > 0 {
      var marker := e.sealed[|s.drafts|];
      MarkerAdds(rows[n..], marker, cfg.size(marker), s.now, out, next, delivered, buried, evicted + Seqs(rows[..n]));
    } else {
      assert rows[n..] == rows;
    }
  }

  lemma {:induction false} MarkerAdds(
      rows: seq<Row>, marker: Envelope, bytes: nat, at: int,
      out: set<nat>, seqno: nat, delivered: set<nat>, buried: set<nat>, evicted: set<nat>)
    requires Tallied(Seqs(rows), out, seqno, delivered, buried, evicted) && marker.seqno == seqno + 1
    ensures var queued := Seqs(Insert(rows, marker, bytes, at));
            && Tallied(queued, out, seqno + 1, delivered, buried, evicted)
            && Absent(queued, seqno + 1, delivered, buried, evicted)
                == Absent(Seqs(rows), seqno, delivered, buried, evicted)
  {
    hide Tallied, Absent, Seqs;
    SeqsInsert(rows, marker, bytes, at);
    assert Numbers(seqno + 1, seqno + 1) == {seqno + 1};
    AccountAdds(Seqs(rows), out, seqno, delivered, buried, evicted, seqno + 1);
  }

  lemma {:induction false} NumbersSplit(a: nat, b: nat, c: nat)
    requires a <= b + 1 && b <= c
    ensures Numbers(a, c) == Numbers(a, b) + Numbers(b + 1, c)
    ensures Numbers(a, b) !! Numbers(b + 1, c)
  {
  }

  lemma {:induction false} SeqsInsert(rows: seq<Row>, envelope: Envelope, bytes: nat, at: int)
    ensures Seqs(Insert(rows, envelope, bytes, at)) == Seqs(rows) + {envelope.seqno}
  {
    var row := Row(NextId(rows), envelope, bytes, at);
    assert forall r :: r in rows + [row] <==> r in rows || r == row;
  }

  // ---- Settling a batch ----

  lemma {:induction false} SeqOrderedCons(head: Row, rest: seq<Row>)
    requires SeqOrdered(rest) && forall r :: r in rest ==> head.envelope.seqno < r.envelope.seqno
    ensures SeqOrdered([head] + rest)
  {
    assert forall i :: 0 <= i < |rest| ==> rest[i] in rest;
  }

  lemma {:induction false} SeqOrderedWithout(rows: seq<Row>, ids: set<nat>)
    requires SeqOrdered(rows)
    ensures SeqOrdered(Without(rows, ids))
    ensures forall r :: r in Without(rows, ids) ==> r in rows
  {
    if rows != [] {
      assert SeqOrdered(rows[1..]) && forall r :: r in rows[1..] ==> rows[0].envelope.seqno < r.envelope.seqno;
      hide SeqOrdered;
      SeqOrderedWithout(rows[1..], ids);
      if rows[0].id !in ids {
        SeqOrderedCons(rows[0], Without(rows[1..], ids));
      } else {
        assert [] + Without(rows[1..], ids) == Without(rows[1..], ids);
      }
    }
  }

  lemma {:induction false} SoundWithout(rows: seq<Row>, sealed: seq<Sealed>, ids: set<nat>)
    requires Sound(rows, sealed)
    ensures Sound(Without(rows, ids), sealed)
    ensures forall r :: r in Without(rows, ids) <==> r in rows && r.id !in ids
  {
    hide Without, Ordered, SeqOrdered;
    WithoutOrdered(rows, ids);
    SeqOrderedWithout(rows, ids);
  }

  /** The numbers of queued records that an id of the batch names without being in the batch. */
  function Overwritten(batch: seq<Row>, pending: seq<Row>): set<nat> {
    set r | r in pending && r.id in Ids(batch) && r !in batch :: r.envelope.seqno
  }

  /** Removing a batch by its ids removes its own numbers and those it overwrites, and no others. */
  lemma {:induction false} SettledSeqs(w: World)
    requires Inv(w)
    ensures var left := Without(w.db.pending, Ids(w.batch));
            && Sound(left, w.ledger.sealed)
            && Seqs(left) == Seqs(w.db.pending) - Seqs(w.batch) - Overwritten(w.batch, w.db.pending)
    ensures Overwritten(w.batch, w.db.pending) <= Seqs(w.db.pending) - Seqs(w.batch)
  {
    hide Accounted, Ordered, Genuine, Without, SeqOrdered;
    var pending, batch := w.db.pending, w.batch;
    var left, over := Without(pending, Ids(batch)), Overwritten(batch, pending);
    SoundWithout(pending, w.ledger.sealed, Ids(batch));
    forall r | r in pending
      ensures r.id in Ids(batch) <==> r.envelope.seqno in Seqs(batch) + over
    {
      BatchIds(batch, r);
      if r.envelope.seqno in over {
        var q :| q in pending && q.id in Ids(batch) && q !in batch && q.envelope.seqno == r.envelope.seqno;
        NumberedOnce(pending, q, r);
      }
    }
  }

  lemma {:induction false} BatchIds(batch: seq<Row>, r: Row)
    ensures r in batch ==> r.id in Ids(batch)
  {
    if r in batch {
      var i :| 0 <= i < |batch| && batch[i] == r;
    }
  }

  lemma {:induction false} NumberedOnce(rows: seq<Row>, q: Row, r: Row)
    requires SeqOrdered(rows) && q in rows && r in rows && q.envelope.seqno == r.envelope.seqno
    ensures q == r
  {
    var i :| 0 <= i < |rows| && rows[i] == q;
    var j :| 0 <= j < |rows| && rows[j] == r;
  }

  /** The tally after a batch left the queue as delivered or buried, with what it overwrote. */
  lemma {:induction false} AccountSettles(
      queued: set<nat>, out: set<nat>, seqno: nat, delivered: set<nat>, buried: set<nat>, evicted: set<nat>,
      over: set<nat>)
    requires Tallied(queued, out, seqno, delivered, buried, evicted) && over <= queued - out
    ensures Tallied(queued - out - over, {}, seqno, delivered + out, buried, evicted)
    ensures Tallied(queued - out - over, {}, seqno, delivered, buried + out, evicted)
    ensures Tallied(queued, {}, seqno, delivered, buried, evicted)
    ensures Absent(queued - out - over, seqno, delivered + out, buried, evicted)
         == Absent(queued - out - over, seqno, delivered, buried + out, evicted)
         == Absent(queued, seqno, delivered, buried, evicted) + over
  {
  }

  /** An answer that takes the batch off the queue. */
  predicate Settles(w: World, s: Step) {
    s.Respond? && w.batch != []
    && var progress := Settle(w.db, w.batch, w.batchSize, s.answer, s.at).progress;
       progress.Shipped? || progress.DeadLettered?
  }

  /** What a step makes go missing. */
  function LostBy(w: World, s: Step): set<nat> {
    if Settles(w, s) then Overwritten(w.batch, w.db.pending) else {}
  }

  /** Settling a batch counts exactly its own records, and loses exactly those its ids overwrite. */
  lemma {:induction false} RespondKeeps(w: World, s: Step)
    requires Inv(w) && s.Respond? && w.batch != []
    ensures Inv(ApplyRespond(w, s)) && Missing(ApplyRespond(w, s)) == Missing(w) + LostBy(w, s)
  {
    hide Without, Ids, InsertDead, Dropped, Decide, Numbered, Ordered, SeqOrdered, Genuine, Tallied, Absent, Seqs,
         ShrinksLeft, SameNumbered, Overwritten;
    SettleShrinks(w.db, w.batch, w.batchSize, s.answer, s.at);
    SettledSeqs(w);
    var Ledger(_, delivered, buried, evicted) := w.ledger;
    AccountSettles(Seqs(w.db.pending), Seqs(w.batch), w.db.seqno, delivered, buried, evicted,
        Overwritten(w.batch, w.db.pending));
    NothingOut(w.ledger.sealed, w.db.pending);
    NothingOut(w.ledger.sealed, Without(w.db.pending, Ids(w.batch)));
    SoundPending(w);
  }

  lemma {:induction false} NothingOut(sealed: seq<Sealed>, pending: seq<Row>)
    ensures Seqs([]) == {} && Ordered([]) && Genuine([], sealed) && SameNumbered([], pending)
  {
  }

  lemma {:induction false} SoundPending(w: World)
    requires Inv(w)
    ensures Sound(w.db.pending, w.ledger.sealed)
  {
  }

  // ---- Whole runs ----

  /** A step is safe unless it is an enqueue that evicts every row while a batch is out. */
  predicate Safe(cfg: Config, w: World, s: Step) {
    s.Submit? && s.commits && w.batch != [] ==> !EvictsAll(cfg, Inserted(cfg, w.db, s.drafts, s.device, s.now))
  }

  predicate AllSafe(cfg: Config, w: World, steps: seq<Step>)
    decreases |steps|
  {
    steps == [] || (Safe(cfg, w, steps[0]) && AllSafe(cfg, Apply(cfg, w, steps[0]), steps[1..]))
  }

  /** A row of the batch is numbered like no new row. */
  lemma {:induction false} SubmitSameNumbered(cfg: Config, w: World, s: Step)
    requires Inv(w) && s.Submit? && s.commits
    ensures SameNumbered(w.batch, ApplySubmit(cfg, w, s).db.pending)
  {
    hide ApplySubmit, EvictsAll, Inserted, Accounted, SeqOrdered, Ordered;
    SubmitNewRows(cfg, w, s);
    var pending := ApplySubmit(cfg, w, s).db.pending;
    forall x, y | x in w.batch && y in pending && x.envelope.seqno == y.envelope.seqno
      ensures x == y
    {
      var i :| 0 <= i < |pending| && pending[i] == y;
    }
  }

  lemma {:induction false} SubmitKeeps(cfg: Config, w: World, s: Step)
    requires Inv(w) && s.Submit? && s.commits
    ensures Inv(ApplySubmit(cfg, w, s)) && Missing(ApplySubmit(cfg, w, s)) == Missing(w)
  {
    hide Enqueue, InsertAll, Inserted, EvictsAll, Numbered, Ordered, SeqOrdered, Genuine, SameNumbered, Accounted,
         Missing, Seqs, Tagged;
    var w' := ApplySubmit(cfg, w, s);
    SubmitNumbered(cfg, w, s);
    SubmitRows(cfg, w, s);
    SubmitConserves(cfg, w, s);
    SubmitSameNumbered(cfg, w, s);
    GenuineStays(w.batch, w.ledger.sealed, w'.ledger.sealed);
  }

  lemma {:induction false} PrefixSound(rows: seq<Row>, k: nat, sealed: seq<Sealed>)
    requires k <= |rows| && Ordered(rows) && Genuine(rows, sealed)
    ensures Ordered(rows[..k]) && Genuine(rows[..k], sealed)
    ensures forall r :: r in rows[..k] ==> r in rows
  {
    forall r | r in rows[..k]
      ensures r in rows
    {
    }
  }

  lemma {:induction false} PrefixGuarded(rows: seq<Row>, k: nat)
    requires k <= |rows| && Ordered(rows)
    ensures Guarded(rows[..k], rows)
  {
    forall r | r in rows
      ensures r.id <= rows[|rows| - 1].id
    {
      var i :| 0 <= i < |rows| && rows[i] == r;
    }
    forall q, r | q in rows && r in rows && q.id == r.id
      ensures q == r
    {
      if q != r {
        OneRowPerId(rows, q, r);
      }
    }
  }

  lemma {:induction false} PrefixSameNumbered(rows: seq<Row>, k: nat)
    requires k <= |rows| && SeqOrdered(rows)
    ensures SameNumbered(rows[..k], rows)
  {
    hide SeqOrdered;
    forall q, r | q in rows[..k] && r in rows && q.envelope.seqno == r.envelope.seqno
      ensures q == r
    {
      NumberedOnce(rows, q, r);
    }
  }

  /** A batch just taken is in the queue, under ids that name it. */
  lemma {:induction false} TakeKeeps(w: World, limit: nat)
    requires Inv(w) && w.batch == [] && limit == w.batchSize
    ensures var batch := Batch(w.db, limit);
            Inv(w.(batch := batch)) && Missing(w.(batch := batch)) == Missing(w) && Guarded(batch, w.db.pending)
  {
    hide Numbered, Tallied, Absent, Ordered, SeqOrdered, Genuine, SameNumbered, Guarded, Seqs;
    var pending, batch := w.db.pending, Batch(w.db, limit);
    PrefixSound(pending, |batch|, w.ledger.sealed);
    PrefixGuarded(pending, |batch|);
    PrefixSameNumbered(pending, |batch|);
    TakenApart(pending, batch, w);
  }

  lemma {:induction false} TakenApart(pending: seq<Row>, batch: seq<Row>, w: World)
    requires Accounted(w) && w.db.pending == pending && forall r :: r in batch ==> r in pending
    ensures Tallied(Seqs(pending), Seqs(batch), w.db.seqno, w.ledger.delivered, w.ledger.buried, w.ledger.evicted)
  {
    assert Seqs(batch) <= Seqs(pending);
  }

  /** Every step keeps the invariant, and makes exactly those records go missing that a settled
      batch overwrites. */
  lemma {:induction false} StepKeeps(cfg: Config, w: World, s: Step)
    requires Inv(w)
    ensures Inv(Apply(cfg, w, s)) && Missing(Apply(cfg, w, s)) == Missing(w) + LostBy(w, s)
  {
    hide ApplySubmit, ApplyRespond, Numbered, Ordered, SeqOrdered, Genuine, SameNumbered, Guarded, Tallied, Absent,
         Seqs, Settle, Overwritten;
    match s
    case Submit(_, _, _, _, commits) =>
      if commits {
        SubmitKeeps(cfg, w, s);
      } else {
        Refused(cfg, w, s);
      }
    case Take =>
      if w.batch == [] {
        TakeKeeps(w, w.batchSize);
      }
    case Respond(_, _) =>
      if w.batch != [] {
        RespondKeeps(w, s);
      }
    case Restart =>
      var Ledger(_, delivered, buried, evicted) := w.ledger;
      AccountSettles(Seqs(w.db.pending), Seqs(w.batch), w.db.seqno, delivered, buried, evicted, {});
      NothingOut(w.ledger.sealed, w.db.pending);
  }

  lemma {:induction false} Refused(cfg: Config, w: World, s: Step)
    requires s.Submit? && !s.commits
    ensures ApplySubmit(cfg, w, s) == w
  {
  }

  /** What a run makes go missing. */
  function Losses(cfg: Config, w: World, steps: seq<Step>): set<nat>
    decreases |steps|
  {
    if steps == [] then {} else LostBy(w, steps[0]) + Losses(cfg, Apply(cfg, w, steps[0]), steps[1..])
  }

  /** Over any run, safe or not, numbers never repeat, the queue stays in their order, no record is
      counted twice, and the records that are nowhere are exactly those its settled batches
      overwrote. */
  lemma {:induction false} RunKeeps(cfg: Config, w: World, steps: seq<Step>)
    requires Inv(w)
    ensures Inv(Run(cfg, w, steps)) && Missing(Run(cfg, w, steps)) == Missing(w) + Losses(cfg, w, steps)
    decreases |steps|
  {
    hide Inv, Apply, Missing, LostBy;
    if steps != [] {
      StepKeeps(cfg, w, steps[0]);
      RunKeeps(cfg, Apply(cfg, w, steps[0]), steps[1..]);
    }
  }

  /** Some answer of the run takes a batch off the queue while an id of it names another record. */
  ghost predicate SomeLossy(cfg: Config, w: World, steps: seq<Step>)
    decreases |steps|
  {
    steps != []
    && ((Settles(w, steps[0]) && NamesAnother(w.batch, w.db.pending))
        || SomeLossy(cfg, Apply(cfg, w, steps[0]), steps[1..]))
  }

  lemma {:induction false} LostExactly(w: World, s: Step)
    requires Inv(w)
    ensures LostBy(w, s) != {} <==> Settles(w, s) && NamesAnother(w.batch, w.db.pending)
  {
    hide Settles, Accounted, Numbered, Genuine, SeqOrdered, SameNumbered;
    var batch, pending := w.batch, w.db.pending;
    if NamesAnother(batch, pending) {
      var b, r :| b in batch && r in pending && b.id == r.id && b != r;
      BatchIds(batch, b);
      assert r !in batch by { OneRowPerId(batch, b, r); }
      assert r.envelope.seqno in Overwritten(batch, pending);
    }
    if Overwritten(batch, pending) != {} {
      var r :| r in pending && r.id in Ids(batch) && r !in batch;
      var i :| 0 <= i < |batch| && batch[i].id == r.id;
      assert batch[i] in batch;
    }
  }

  lemma {:induction false} OneRowPerId(rows: seq<Row>, q: Row, r: Row)
    requires Ordered(rows) && q in rows && q.id == r.id && q != r
    ensures r !in rows
  {
    var i :| 0 <= i < |rows| && rows[i] == q;
    assert forall j :: 0 <= j < |rows| && j != i ==> rows[j].id != rows[i].id;
  }

  /** A run loses a record exactly when it settles a batch under an id that names another one. */
  lemma {:induction false} RunLosesExactly(cfg: Config, w: World, steps: seq<Step>)
    requires Inv(w)
    ensures Missing(Run(cfg, w, steps)) == {} <==> Missing(w) == {} && !SomeLossy(cfg, w, steps)
    decreases |steps|
  {
    hide Inv, Apply, Missing, LostBy, Settles, NamesAnother;
    if steps != [] {
      StepKeeps(cfg, w, steps[0]);
      LostExactly(w, steps[0]);
      RunLosesExactly(cfg, Apply(cfg, w, steps[0]), steps[1..]);
    }
  }

  // ---- Runs that lose nothing ----

  /** Every id of a batch in flight stays safe over a step exactly when the step is. */
  lemma {:induction false} StepGuards(cfg: Config, w: World, s: Step)
    requires Inv(w) && Guarded(w.batch, w.db.pending)
    ensures var w' := Apply(cfg, w, s);
            Guarded(w'.batch, w'.db.pending) <==> Safe(cfg, w, s)
  {
    hide ApplySubmit, Inv, Inserted, EvictsAll, Guarded, Settle;
    match s
    case Submit(_, _, _, _, commits) =>
      if !commits {
        Refused(cfg, w, s);
      } else if w.batch != [] {
        SubmitBatch(cfg, w, s);
        GuardedExactly(cfg, w, s);
      } else {
        SubmitBatch(cfg, w, s);
        UnguardedEmpty(ApplySubmit(cfg, w, s).db.pending);
      }
    case Take =>
      if w.batch == [] {
        TakeKeeps(w, w.batchSize);
      }
    case Respond(_, _) =>
      UnguardedEmpty(Apply(cfg, w, s).db.pending);
    case Restart =>
      UnguardedEmpty(w.db.pending);
  }

  lemma {:induction false} SubmitBatch(cfg: Config, w: World, s: Step)
    requires s.Submit?
    ensures ApplySubmit(cfg, w, s).batch == w.batch
  {
  }

  lemma {:induction false} UnguardedEmpty(pending: seq<Row>)
    ensures Guarded([], pending)
  {
  }

  /** A run without an enqueue that evicts every row while a batch is out loses nothing. */
  lemma {:induction false} SafeRunsLoseNothing(cfg: Config, w: World, steps: seq<Step>)
    requires Inv(w) && Guarded(w.batch, w.db.pending) && AllSafe(cfg, w, steps)
    ensures Losses(cfg, w, steps) == {}
    decreases |steps|
  {
    hide Inv, Apply, Safe, LostBy, Settles;
    if steps != [] {
      assert !NamesAnother(w.batch, w.db.pending);
      StepKeeps(cfg, w, steps[0]);
      StepGuards(cfg, w, steps[0]);
      LostExactly(w, steps[0]);
      SafeRunsLoseNothing(cfg, Apply(cfg, w, steps[0]), steps[1..]);
    }
  }

  lemma FreshKeeps()
    ensures Inv(FRESH) && Missing(FRESH) == {}
  {
    assert Numbers(1, 0) == {};
  }

  const TICK := RecordDraft(Windows, Tick, 0, false, map[], WindowsKey)
  const SUBMIT_TICK := Submit([TICK], None, None, 0, true)
  const ACCEPTED := Respond(Http(200, Some(ServiceResponse(1, 0, 0))), 0)

  const TICK_OUT := [SUBMIT_TICK, Take]

  /** After a tick and a take one row is queued and out, the tick or the marker of its eviction. */
  lemma {:induction false} TickOut(cfg: Config) returns (w: World)
    ensures w == Run(cfg, FRESH, TICK_OUT) && Inv(w) && 1 <= w.db.seqno <= 2
    ensures w.batch == w.db.pending && |w.batch| == 1 && w.batch[0].id == 1
  {
    hide Apply, Inv, Missing;
    var queued := Apply(cfg, FRESH, SUBMIT_TICK);
    w := Apply(cfg, queued, Take);
    assert TICK_OUT[1..] == [Take] && [Take][1..] == [];
    assert Run(cfg, FRESH, TICK_OUT) == Run(cfg, queued, [Take]) == Run(cfg, w, []);
    FreshKeeps();
    StepKeeps(cfg, FRESH, SUBMIT_TICK);
    StepKeeps(cfg, queued, Take);
    OneRowQueued(cfg, queued, w);
  }

  lemma {:induction false} OneRowQueued(cfg: Config, queued: World, out: World)
    requires queued == Apply(cfg, FRESH, SUBMIT_TICK) && out == Apply(cfg, queued, Take)
    ensures out.batch == out.db.pending && |out.batch| == 1 && out.batch[0].id == 1 && 1 <= out.db.seqno <= 2
  {
    hide Fits, Plan;
    OneMore(cfg, [], SUBMIT_TICK, 0);
    EvictionIsShortest(cfg, EMPTY, [TICK], None, None, 0);
    var rows := Inserted(cfg, EMPTY, [TICK], None, 0);
    var e := Enqueue(cfg, EMPTY, [TICK], None, None, 0);
    assert |rows| == 1 && rows[0].id == 1;
    if |e.dropped| == 1 {
      assert rows[1..] == [];
    }
  }

  /** Why a loss can happen: an enqueue that evicts every row while the first is out leaves its
      marker under that row's id, and the answer to the row deletes the marker. */
  lemma {:induction false} ReuseLoses(cfg: Config, s: Step) returns (steps: seq<Step>)
    requires s.Submit? && s.commits
    requires EvictsAll(cfg, Inserted(cfg, Run(cfg, FRESH, TICK_OUT).db, s.drafts, s.device, s.now))
    ensures steps == TICK_OUT + [s, ACCEPTED] && Missing(Run(cfg, FRESH, steps)) != {}
  {
    hide Apply, Inv, Missing, Settles, NamesAnother, EvictsAll, Inserted, Run;
    var out := TickOut(cfg);
    var reused := Apply(cfg, out, s);
    ReusedWhileOut(cfg, out, s);
    OneAccepted(reused);
    assert [s, ACCEPTED][1..] == [ACCEPTED];
    assert SomeLossy(cfg, reused, [ACCEPTED]);
    assert SomeLossy(cfg, out, [s, ACCEPTED]);
    RunLosesExactly(cfg, out, [s, ACCEPTED]);
    RunOn(cfg, FRESH, TICK_OUT, [s, ACCEPTED]);
    steps := TICK_OUT + [s, ACCEPTED];
  }

  lemma {:induction false} ReusedWhileOut(cfg: Config, w: World, s: Step)
    requires Inv(w) && s.Submit? && s.commits && EvictsAll(cfg, Inserted(cfg, w.db, s.drafts, s.device, s.now))
    requires w.batch == w.db.pending && |w.batch| == 1 && w.batch[0].id == 1
    ensures var w' := Apply(cfg, w, s);
            w'.batch == w.batch && NamesAnother(w'.batch, w'.db.pending)
  {
    hide Enqueue, Inserted, Inv, ApplySubmit, EvictsAll, NamesAnother;
    TakenGuards(w);
    ReuseExactly(cfg, w, s);
    SubmitBatch(cfg, w, s);
    BatchIds(w.batch, w.batch[0]);
  }

  /** The first cause: a table of one row, whatever the sizes. */
  lemma {:induction false} MarkerLost(cfg: Config) returns (steps: seq<Step>)
    requires cfg.caps.maxRows == 1
    ensures Missing(Run(cfg, FRESH, steps)) != {}
  {
    hide Inserted, Missing, Run, Inv;
    var out := TickOut(cfg);
    var rows := Inserted(cfg, out.db, [TICK], None, 0);
    InsertedAfter(cfg, out, [TICK], None, 0);
    assert EvictsAll(cfg, rows);
    steps := ReuseLoses(cfg, SUBMIT_TICK);
  }

  function Copies(draft: RecordDraft, n: nat): (drafts: seq<RecordDraft>)
    ensures |drafts| == n && forall i :: 0 <= i < n ==> drafts[i] == draft
  {
    seq(n, _ => draft)
  }

  /** A draft whose record alone is over what eviction aims for, under any number it may get in a
      run that begins with a tick; `n` of them are over the cap. One does if it alone is. */
  ghost predicate Oversized(cfg: Config, draft: RecordDraft, n: nat)
    requires n >= 1
  {
    forall q: nat :: 2 <= q <= n + 2 ==>
      var size := cfg.size(SealOne(cfg, cfg.device, draft, q));
      size > cfg.caps.maxBytes - OVERFLOW_HEADROOM_BYTES && size > cfg.caps.maxBytes / n
  }

  /** The second cause: a record too long, whatever number of rows the table may hold. Nothing
      bounds a record, so no configuration is free of it. */
  lemma {:induction false} OversizedLoses(cfg: Config, draft: RecordDraft, n: nat) returns (steps: seq<Step>)
    requires ValidCaps(cfg.caps) && n >= 1 && Oversized(cfg, draft, n)
    ensures steps == TICK_OUT + [Submit(Copies(draft, n), None, None, 0, true), ACCEPTED]
    ensures Missing(Run(cfg, FRESH, steps)) != {}
  {
    hide Inserted, Missing, Run, Inv, Copies, Oversized;
    var out := TickOut(cfg);
    InsertedAfter(cfg, out, Copies(draft, n), None, 0);
    OversizedEvicts(cfg, out, draft, n);
    steps := ReuseLoses(cfg, Submit(Copies(draft, n), None, None, 0, true));
  }

  lemma {:induction false} OversizedEvicts(cfg: Config, w: World, draft: RecordDraft, n: nat)
    requires ValidCaps(cfg.caps) && n >= 1 && Oversized(cfg, draft, n) && 1 <= w.db.seqno <= 2
    requires var rows := Inserted(cfg, w.db, Copies(draft, n), None, 0);
             InsertedFrom(cfg, w.db, Copies(draft, n), None, rows)
    ensures EvictsAll(cfg, Inserted(cfg, w.db, Copies(draft, n), None, 0))
  {
    hide Inserted, Total, Copies;
    var rows, p := Inserted(cfg, w.db, Copies(draft, n), None, 0), |w.db.pending|;
    var least := cfg.caps.maxBytes / n + 1;
    forall i | 0 <= i < n
      ensures rows[p..][i].bytes >= least
    {
      assert rows[p + i].bytes == cfg.size(SealOne(cfg, cfg.device, draft, w.db.seqno + 1 + i));
    }
    TotalAtLeast(rows[p..], least);
    assert n * least > cfg.caps.maxBytes;
    TotalSuffix(rows, p);
    assert rows[p + n - 1].bytes == cfg.size(SealOne(cfg, cfg.device, draft, w.db.seqno + n));
    EvictsAllByCaps(cfg, rows);
  }

  lemma {:induction false} TakenGuards(w: World)
    requires w.batch == w.db.pending && Inv(w)
    ensures Guarded(w.batch, w.db.pending)
  {
    var rows := w.batch;
    forall b | b in rows
      ensures b.id <= rows[|rows| - 1].id
    {
    }
  }

  /** The rows an enqueue inserts are its records, each of its own size. */
  ghost predicate InsertedFrom(
      cfg: Config, db: Db, drafts: seq<RecordDraft>, device: Option<string>, rows: seq<Row>)
  {
    && |rows| == |db.pending| + |drafts|
    && forall i :: |db.pending| <= i < |rows| ==>
         var k := i - |db.pending|;
         rows[i].bytes == cfg.size(SealOne(cfg, device.GetOr(cfg.device), drafts[k], db.seqno + 1 + k))
  }

  lemma {:induction false} InsertedAfter(
      cfg: Config, w: World, drafts: seq<RecordDraft>, device: Option<string>, now: int)
    requires Inv(w)
    ensures InsertedFrom(cfg, w.db, drafts, device, Inserted(cfg, w.db, drafts, device, now))
  {
    hide Inv, SealOne, InsertAll, Ordered;
    QueueParts(w);
    var sealed := Seal(cfg, device.GetOr(cfg.device), drafts, w.db.seqno);
    InsertAllRows(cfg, w.db.pending, sealed, now);
    InsertAllSizes(cfg, w.db.pending, sealed, now);
  }

  lemma {:induction false} InsertAllSizes(cfg: Config, rows: seq<Row>, envelopes: seq<Envelope>, at: int)
    requires Ordered(rows)
    ensures var all := InsertAll(cfg, rows, envelopes, at);
            |all| == |rows| + |envelopes|
            && forall i :: |rows| <= i < |all| ==> all[i].bytes == cfg.size(envelopes[i - |rows|])
    decreases |envelopes|
  {
    if envelopes != [] {
      var more := Insert(rows, envelopes[0], cfg.size(envelopes[0]), at);
      InsertAllSizes(cfg, more, envelopes[1..], at);
      InsertAllRows(cfg, more, envelopes[1..], at);
      var all := InsertAll(cfg, rows, envelopes, at);
      assert all[|rows|] == all[..|more|][|rows|] == more[|rows|];
      forall i | |rows| <= i < |all|
        ensures all[i].bytes == cfg.size(envelopes[i - |rows|])
      {
        if i > |rows| {
          assert envelopes[i - |rows|] == envelopes[1..][i - |more|];
        }
      }
    }
  }

  lemma {:induction false} TotalAtLeast(rows: seq<Row>, least: nat)
    requires forall i :: 0 <= i < |rows| ==> rows[i].bytes >= least
    ensures Total(rows) >= |rows| * least
  {
    if rows != [] {
      TotalAtLeast(rows[1..], least);
      assert |rows| * least == (|rows| - 1) * least + least;
    }
  }

  lemma {:induction false} OneAccepted(w: World)
    requires |w.batch| == 1
    ensures Settles(w, ACCEPTED)
  {
  }

  lemma {:induction false} RunOn(cfg: Config, w: World, first: seq<Step>, last: seq<Step>)
    ensures Run(cfg, w, first + last) == Run(cfg, Run(cfg, w, first), last)
    ensures AllSafe(cfg, w, first + last) ==> AllSafe(cfg, Run(cfg, w, first), last)
    decreases |first|
  {
    if first == [] {
      assert first + last == last;
    } else {
      assert (first + last)[1..] == first[1..] + last;
      RunOn(cfg, Apply(cfg, w, first[0]), first[1..], last);
    }
  }

  lemma OneMore(cfg: Config, rows: seq<Row>, s: Step, seqno: nat)
    requires s.Submit? && |s.drafts| == 1
    ensures var envelope := SealOne(cfg, s.device.GetOr(cfg.device), s.drafts[0], seqno + 1);
            InsertAll(cfg, rows, Seal(cfg, s.device.GetOr(cfg.device), s.drafts, seqno), s.now)
            == Insert(rows, envelope, cfg.size(envelope), s.now)
  {
    var sealed := Seal(cfg, s.device.GetOr(cfg.device), s.drafts, seqno);
    assert sealed[1..] == [];
  }

  /** The draft's record is over the bound, whatever number it gets. */
  ghost predicate Longer(cfg: Config, draft: RecordDraft, bound: nat) {
    forall q: nat :: cfg.size(SealOne(cfg, cfg.device, draft, q)) > bound
  }

  ghost predicate CanExceed(cfg: Config, bound: nat) {
    exists draft :: Longer(cfg, draft, bound)
  }

  /** As records have no bound, some run loses a record under every configuration. */
  lemma {:induction false} EveryConfigLoses(cfg: Config) returns (steps: seq<Step>)
    requires ValidCaps(cfg.caps) && forall bound: nat :: CanExceed(cfg, bound)
    ensures Missing(Run(cfg, FRESH, steps)) != {}
  {
    hide Missing, Run;
    assert CanExceed(cfg, cfg.caps.maxBytes);
    var draft :| Longer(cfg, draft, cfg.caps.maxBytes);
    steps := OversizedLoses(cfg, draft, 1);
  }

  /** The newest row of every enqueue is within what eviction aims for. */
  predicate Roomy(cfg: Config, w: World, steps: seq<Step>)
    decreases |steps|
  {
    steps == [] || (RoomyStep(cfg, w, steps[0]) && Roomy(cfg, Apply(cfg, w, steps[0]), steps[1..]))
  }

  predicate RoomyStep(cfg: Config, w: World, s: Step) {
    s.Submit? && s.commits ==>
      var rows := Inserted(cfg, w.db, s.drafts, s.device, s.now);
      rows == [] || rows[|rows| - 1].bytes <= SatSub(cfg.caps.maxBytes, OVERFLOW_HEADROOM_BYTES)
  }

  /** With room for two rows, and for every newest row beside a marker, nothing is lost. */
  lemma {:induction false} RoomyRunsLoseNothing(cfg: Config, w: World, steps: seq<Step>)
    requires ValidCaps(cfg.caps) && cfg.caps.maxRows >= 2
    requires Inv(w) && Guarded(w.batch, w.db.pending) && Roomy(cfg, w, steps)
    ensures Losses(cfg, w, steps) == {} && Missing(Run(cfg, w, steps)) == Missing(w)
  {
    hide Inv, Guarded, Missing, Losses;
    RoomyIsSafe(cfg, w, steps);
    SafeRunsLoseNothing(cfg, w, steps);
    RunKeeps(cfg, w, steps);
  }

  lemma {:induction false} RoomyIsSafe(cfg: Config, w: World, steps: seq<Step>)
    requires ValidCaps(cfg.caps) && cfg.caps.maxRows >= 2 && Roomy(cfg, w, steps)
    ensures AllSafe(cfg, w, steps)
    decreases |steps|
  {
    hide Apply, Inserted, EvictsAll;
    if steps != [] {
      var s := steps[0];
      if s.Submit? && s.commits {
        RoomForNewest(cfg, Inserted(cfg, w.db, s.drafts, s.device, s.now));
      }
      RoomyIsSafe(cfg, Apply(cfg, w, s), steps[1..]);
    }
  }

  lemma {:induction false} RoomForNewest(cfg: Config, rows: seq<Row>)
    requires ValidCaps(cfg.caps) && cfg.caps.maxRows >= 2
    requires rows == [] || rows[|rows| - 1].bytes <= SatSub(cfg.caps.maxBytes, OVERFLOW_HEADROOM_BYTES)
    ensures !EvictsAll(cfg, rows)
  {
    if rows != [] && !Fits(rows, cfg.caps) {
      EvictsAllByCaps(cfg, rows);
    }
  }

  // ---- The caps over a run ----

  /** Every enqueue is by a clock in range and within 64-bit numbers. */
  predicate InRange(cfg: Config, w: World, steps: seq<Step>)
    decreases |steps|
  {
    steps == [] || (
      (steps[0].Submit? ==> Clocked(steps[0].now) && w.db.seqno + |steps[0].drafts| < U64_MAX)
      && InRange(cfg, Apply(cfg, w, steps[0]), steps[1..]))
  }

  /** The table is within the caps, and its times are in range. */
  ghost predicate WithinCaps(cfg: Config, rows: seq<Row>) {
    Fits(rows, cfg.caps) && forall r :: r in rows ==> Clocked(r.at)
  }

  lemma {:induction false} WithoutFits(rows: seq<Row>, ids: set<nat>)
    ensures var left := Without(rows, ids);
            |left| <= |rows| && Total(left) <= Total(rows) && forall r :: r in left ==> r in rows
  {
    if rows != [] {
      WithoutFits(rows[1..], ids);
      var rest := Without(rows[1..], ids);
      assert ([rows[0]] + rest)[1..] == rest && [] + rest == rest;
    }
  }

  lemma {:induction false} SubmitCaps(cfg: Config, w: World, s: Step)
    requires ValidCaps(cfg.caps) && MarkersFit(cfg) && Inv(w) && WithinCaps(cfg, w.db.pending)
    requires s.Submit? && s.commits && Clocked(s.now) && w.db.seqno + |s.drafts| < U64_MAX
    ensures WithinCaps(cfg, ApplySubmit(cfg, w, s).db.pending)
  {
    hide Enqueue, Inserted, Fits, MarkersFit, Clocked, Total, Genuine, Accounted, SameNumbered;
    QueueParts(w);
    assert Enqueueable(w.db, s.drafts, s.now) by { InvStorable(w); }
    CapsHold(cfg, w.db, s.drafts, s.cursor, s.device, s.now);
    EnqueueClocked(cfg, w.db, s.drafts, s.cursor, s.device, s.now);
  }

  lemma {:induction false} InvStorable(w: World)
    requires Inv(w) && forall r :: r in w.db.pending ==> Clocked(r.at)
    ensures Storable(w.db)
  {
    hide Clocked, Accounted, SameNumbered;
  }

  lemma {:induction false} EnqueueClocked(
      cfg: Config, db: Db, drafts: seq<RecordDraft>, cursor: Option<Cursor>, device: Option<string>, now: int)
    requires Clocked(now) && forall r :: r in db.pending ==> Clocked(r.at)
    ensures forall r :: r in Enqueue(cfg, db, drafts, cursor, device, now).db.pending ==> Clocked(r.at)
  {
    hide Dropped, InsertAll, Seal, Marker, Clocked;
    InsertAllClocked(cfg, db.pending, Seal(cfg, device.GetOr(cfg.device), drafts, db.seqno), now);
  }

  lemma {:induction false} StepCaps(cfg: Config, w: World, s: Step)
    requires ValidCaps(cfg.caps) && MarkersFit(cfg) && Inv(w) && WithinCaps(cfg, w.db.pending)
    requires s.Submit? ==> Clocked(s.now) && w.db.seqno + |s.drafts| < U64_MAX
    ensures WithinCaps(cfg, Apply(cfg, w, s).db.pending)
  {
    hide Enqueue, MarkersFit, Clocked, Total, Inv, Without, Decide, InsertDead, Dropped, Ids;
    match s
    case Submit(_, _, _, _, commits) =>
      if commits {
        SubmitCaps(cfg, w, s);
      } else {
        Refused(cfg, w, s);
      }
    case Take =>
    case Respond(_, _) =>
      WithoutFits(w.db.pending, Ids(w.batch));
    case Restart =>
  }

  /** Where every marker fits its room, the table is within its caps at every point of every run. */
  lemma {:induction false} RunCapsHold(cfg: Config, w: World, steps: seq<Step>)
    requires ValidCaps(cfg.caps) && MarkersFit(cfg) && Inv(w) && WithinCaps(cfg, w.db.pending)
    requires InRange(cfg, w, steps)
    ensures WithinCaps(cfg, Run(cfg, w, steps).db.pending)
    decreases |steps|
  {
    hide Inv, Apply, MarkersFit, WithinCaps;
    if steps != [] {
      StepKeeps(cfg, w, steps[0]);
      StepCaps(cfg, w, steps[0]);
      RunCapsHold(cfg, Apply(cfg, w, steps[0]), steps[1..]);
    }
  }

  /** What holds of the batch size in every run, safe or not. */
  predicate Sized(w: World) {
    |w.batch| <= w.batchSize && MIN_BATCH <= w.batchSize <= MAX_BATCH
  }

  function Shrinks(cfg: Config, w: World, steps: seq<Step>): nat
    decreases |steps|
  {
    if steps == [] then 0
    else
      var w' := Apply(cfg, w, steps[0]);
      (if steps[0].Respond? && w'.batchSize < w.batchSize then 1 else 0) + Shrinks(cfg, w', steps[1..])
  }

  /** Over the life of one process the batch size never grows and shrinks at most as often as
      its potential allows: six times from the start. */
  lemma {:induction false} LifeShrinks(cfg: Config, w: World, steps: seq<Step>)
    requires Sized(w) && Restart !in steps
    ensures var end := Run(cfg, w, steps);
            && Sized(end) && end.batchSize <= w.batchSize
            && Shrinks(cfg, w, steps) + ShrinksLeft(end.batchSize) <= ShrinksLeft(w.batchSize)
    decreases |steps|
  {
    if steps != [] {
      SizedStep(cfg, w, steps[0]);
      hide Apply, Sized, ShrinksLeft;
      LifeShrinks(cfg, Apply(cfg, w, steps[0]), steps[1..]);
    }
  }

  lemma {:induction false} SizedStep(cfg: Config, w: World, s: Step)
    requires Sized(w) && s != Restart
    ensures var w' := Apply(cfg, w, s);
            && Sized(w') && w'.batchSize <= w.batchSize
            && (if s.Respond? && w'.batchSize < w.batchSize then 1 else 0) + ShrinksLeft(w'.batchSize)
                <= ShrinksLeft(w.batchSize)
  {
    hide Enqueue, ShrinksLeft, Settle;
    if s.Respond? {
      SettleShrinks(w.db, w.batch, w.batchSize, s.answer, s.at);
    }
  }

  lemma {:induction false} AtMostSixShrinks(cfg: Config, steps: seq<Step>)
    requires Restart !in steps
    ensures Shrinks(cfg, FRESH, steps) <= 6
  {
    LifeShrinks(cfg, FRESH, steps);
    SixShrinks();
  }

  // ---- Markers and keys over a run ----

  function DroppedBy(e: Envelope): nat {
    if e.draft.kind == BufferOverflow && "details" in e.draft.payload && e.draft.payload["details"].Details?
    then e.draft.payload["details"].dropped else 0
  }

  /** What all overflow markers together say was dropped. */
  function Reported(sealed: seq<Sealed>): nat {
    if sealed == [] then 0 else DroppedBy(sealed[0].envelope) + Reported(sealed[1..])
  }

  lemma {:induction false} ReportedAppend(a: seq<Sealed>, b: seq<Sealed>)
    ensures Reported(a + b) == Reported(a) + Reported(b)
  {
    if a == [] {
      assert a + b == b;
    } else {
      assert (a + b)[1..] == a[1..] + b;
      ReportedAppend(a[1..], b);
    }
  }

  lemma {:induction false} ReportedNone(sealed: seq<Sealed>)
    requires forall i :: 0 <= i < |sealed| ==> sealed[i].envelope.draft.kind != BufferOverflow
    ensures Reported(sealed) == 0
  {
    if sealed != [] {
      ReportedNone(sealed[1..]);
    }
  }

  /** Only the buffer makes overflow records. */
  predicate Ordinary(s: Step) {
    s.Submit? ==> forall i :: 0 <= i < |s.drafts| ==> s.drafts[i].kind != BufferOverflow
  }

  lemma {:induction false} SeqsCount(rows: seq<Row>)
    requires SeqOrdered(rows)
    ensures |Seqs(rows)| == |rows|
  {
    if rows == [] {
      assert Seqs(rows) == {};
    } else {
      var last := |rows| - 1;
      var front := rows[..last];
      SeqsCount(front);
      assert rows == front + [rows[last]];
      assert Seqs(rows) == Seqs(front) + {rows[last].envelope.seqno} by {
        assert forall r :: r in rows <==> r in front || r == rows[last];
      }
    }
  }

  /** An enqueue reports as many records as it newly counts as evicted. */
  lemma {:induction false} SubmitReports(cfg: Config, w: World, s: Step)
    requires Inv(w) && s.Submit? && s.commits && Ordinary(s)
    ensures var w' := ApplySubmit(cfg, w, s);
            Reported(w'.ledger.sealed) - Reported(w.ledger.sealed) == |w'.ledger.evicted| - |w.ledger.evicted|
  {
    hide InsertAll, Dropped, Enqueue, Seal, Fits, SameNumbered, Ordered, Genuine, Tallied, Seqs, Numbered, SeqOrdered,
         Inserted;
    var e := Enqueue(cfg, w.db, s.drafts, s.cursor, s.device, s.now);
    var rows := Inserted(cfg, w.db, s.drafts, s.device, s.now);
    var n := |e.dropped|;
    EvictionIsShortest(cfg, w.db, s.drafts, s.cursor, s.device, s.now);
    SealedNumbers(cfg, w.db, s);
    var tagged := Tagged(e.sealed, |s.drafts|, s.cursor);
    var plain := tagged[..|s.drafts|];
    ReportedAppend(w.ledger.sealed, tagged);
    assert tagged == plain + tagged[|s.drafts|..];
    ReportedAppend(plain, tagged[|s.drafts|..]);
    assert forall i :: 0 <= i < |plain| ==>
        plain[i].envelope == e.sealed[i] == Seal(cfg, s.device.GetOr(cfg.device), s.drafts, w.db.seqno)[i];
    ReportedNone(plain);
    FreshEvictions(cfg, w, s);
    if n > 0 {
      var marker := tagged[|s.drafts|];
      assert tagged[|s.drafts|..] == [marker] && [marker][1..] == [];
      assert Reported([marker]) == DroppedBy(marker.envelope) + Reported([]);
    } else {
      assert tagged[|s.drafts|..] == [];
    }
  }

  lemma {:induction false} FreshEvictions(cfg: Config, w: World, s: Step)
    requires Inv(w) && s.Submit?
    ensures var gone := Enqueue(cfg, w.db, s.drafts, s.cursor, s.device, s.now).dropped;
            |w.ledger.evicted + Seqs(gone)| == |w.ledger.evicted| + |gone|
  {
    hide InsertAll, Dropped, Enqueue, Seal, Fits, SameNumbered, Ordered, Genuine, Numbered, Inserted, Seqs;
    QueueParts(w);
    InsertedRows(cfg, w.db, s.drafts, s.device, s.now);
    InsertedSeqs(cfg, w.db, s.drafts, s.device, s.now);
    EvictionIsShortest(cfg, w.db, s.drafts, s.cursor, s.device, s.now);
    var rows := Inserted(cfg, w.db, s.drafts, s.device, s.now);
    var gone := Enqueue(cfg, w.db, s.drafts, s.cursor, s.device, s.now).dropped;
    SeqsSplit(rows, |gone|);
    SeqsCount(gone);
    NumbersSplit(1, w.db.seqno, w.db.seqno + |s.drafts|);
    assert Seqs(gone) !! w.ledger.evicted;
  }

  /** The markers of any run report exactly the records it evicted. */
  lemma {:induction false} RunReports(cfg: Config, w: World, steps: seq<Step>)
    requires Inv(w)
    requires forall i :: 0 <= i < |steps| ==> Ordinary(steps[i])
    ensures var end := Run(cfg, w, steps);
            Reported(end.ledger.sealed) - Reported(w.ledger.sealed) == |end.ledger.evicted| - |w.ledger.evicted|
    decreases |steps|
  {
    hide Inv, Missing, LostBy, Reported, Ordinary, ApplySubmit, Settle;
    if steps != [] {
      StepKeeps(cfg, w, steps[0]);
      if steps[0].Submit? {
        if steps[0].commits {
          SubmitReports(cfg, w, steps[0]);
        } else {
          Refused(cfg, w, steps[0]);
        }
      }
      RunReports(cfg, Apply(cfg, w, steps[0]), steps[1..]);
    }
  }

  /** No two window records ever sealed share a dedup key text, whatever their devices. */
  lemma {:induction false} WindowKeysDistinct(w: World, i: nat, j: nat)
    requires Numbered(w.ledger.sealed, w.db.seqno) && i < j < |w.ledger.sealed|
    requires var a, b := w.ledger.sealed[i].envelope, w.ledger.sealed[j].envelope;
             a.draft.key.WindowsKey? && b.draft.key.WindowsKey?
    ensures Keys.Preimage(w.ledger.sealed[i].envelope) != Keys.Preimage(w.ledger.sealed[j].envelope)
  {
    hide Keys.Preimage;
    Keys.WindowKeysApart(w.ledger.sealed[i].envelope, w.ledger.sealed[j].envelope);
  }
}
