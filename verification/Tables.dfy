/** The buffer database (src/runtime/buffer.rs) as values: what each transaction leaves behind.
    Tables are sequences in id order; one transaction is one function. */
module Tables {
  import opened Options
  import opened Records

  const OVERFLOW_HEADROOM_BYTES := 512
  const DEAD_LETTER_CAPS := Caps(5_000, 50 * 1024 * 1024)

  /** A row of `pending` or `dead_letter`: `bytes` is the stored size of its envelope. */
  datatype Row = Row(id: nat, envelope: Envelope, bytes: nat, at: int)

  datatype Caps = Caps(maxRows: nat, maxBytes: nat)

  /** What the owner thread is opened with; redaction and serialised size are outside code. */
  datatype Config = Config(device: string, caps: Caps, redact: Payload -> Payload, size: Envelope -> nat)

  datatype Db = Db(pending: seq<Row>, dead: seq<Row>, cursors: map<CursorKey, CursorValue>, seqno: nat)

  const EMPTY := Db([], [], map[], 0)

  /** The id a plain INTEGER PRIMARY KEY gives the next row: one over the highest, 1 when empty. */
  function NextId(rows: seq<Row>): nat {
    if rows == [] then 1 else rows[|rows| - 1].id + 1
  }

  ghost predicate Ordered(rows: seq<Row>) {
    && (forall i :: 0 <= i < |rows| ==> rows[i].id >= 1)
    && (forall i, j :: 0 <= i < j < |rows| ==> rows[i].id < rows[j].id)
  }

  ghost predicate SeqOrdered(rows: seq<Row>) {
    forall i, j :: 0 <= i < j < |rows| ==> rows[i].envelope.seqno < rows[j].envelope.seqno
  }

  function Insert(rows: seq<Row>, envelope: Envelope, bytes: nat, at: int): seq<Row> {
    rows + [Row(NextId(rows), envelope, bytes, at)]
  }

  function InsertAll(cfg: Config, rows: seq<Row>, envelopes: seq<Envelope>, at: int): seq<Row>
    decreases |envelopes|
  {
    if envelopes == [] then rows
    else InsertAll(cfg, Insert(rows, envelopes[0], cfg.size(envelopes[0]), at), envelopes[1..], at)
  }

  /** Redacts a draft and gives it the device and sequence number it keeps. */
  function SealOne(cfg: Config, device: string, draft: RecordDraft, seqno: nat): Envelope {
    Envelope(device, seqno, draft.(payload := cfg.redact(draft.payload)))
  }

  function Seal(cfg: Config, device: string, drafts: seq<RecordDraft>, seqno: nat): (sealed: seq<Envelope>)
    ensures |sealed| == |drafts|
    ensures forall i :: 0 <= i < |drafts| ==> sealed[i] == SealOne(cfg, device, drafts[i], seqno + 1 + i)
  {
    seq(|drafts|, i requires 0 <= i < |drafts| => SealOne(cfg, device, drafts[i], seqno + 1 + i))
  }

  function Total(rows: seq<Row>): nat {
    if rows == [] then 0 else rows[0].bytes + Total(rows[1..])
  }

  predicate Fits(rows: seq<Row>, caps: Caps) {
    |rows| <= caps.maxRows && Total(rows) <= caps.maxBytes
  }

  /** How many of the oldest rows go before the rest fits the targets. */
  function Plan(rows: seq<Row>, targets: Caps): (n: nat)
    ensures n <= |rows|
  {
    if rows == [] || Fits(rows, targets) then 0 else 1 + Plan(rows[1..], targets)
  }

  function SatSub(a: nat, b: nat): nat { if a < b then 0 else a - b }

  /** Room for one overflow record is held back. */
  function PendingTargets(caps: Caps): Caps {
    Caps(SatSub(caps.maxRows, 1), SatSub(caps.maxBytes, OVERFLOW_HEADROOM_BYTES))
  }

  function Dropped(rows: seq<Row>, caps: Caps, targets: Caps): (n: nat)
    ensures n <= |rows|
  {
    if Fits(rows, caps) then 0 else Plan(rows, targets)
  }

  function OverflowDraft(dropped: nat, from: int, to: int, now: int): RecordDraft {
    RecordDraft(Windows, BufferOverflow, now, false, map["details" := Details(dropped, from, to)], WindowsKey)
  }

  /** The record an eviction leaves behind, under the daemon's own device. */
  function Marker(cfg: Config, dropped: nat, from: int, to: int, seqno: nat, now: int): Envelope {
    Envelope(cfg.device, seqno, OverflowDraft(dropped, from, to, now))
  }

  datatype Enqueued = Enqueued(db: Db, sealed: seq<Envelope>, dropped: seq<Row>)

  /** The enqueue transaction: the drafts and the cursor they advance to together, then eviction
      of the oldest rows and one marker for what was evicted. */
  function Enqueue(
      cfg: Config, db: Db, drafts: seq<RecordDraft>, cursor: Option<Cursor>, device: Option<string>,
      now: int): Enqueued {
    var sealed := Seal(cfg, device.GetOr(cfg.device), drafts, db.seqno);
    var rows := InsertAll(cfg, db.pending, sealed, now);
    var cursors := if cursor.Some? then db.cursors[cursor.value.key := cursor.value.value] else db.cursors;
    var n := Dropped(rows, cfg.caps, PendingTargets(cfg.caps));
    if n == 0 then Enqueued(Db(rows, db.dead, cursors, db.seqno + |drafts|), sealed, [])
    else
      var seqno := db.seqno + |drafts| + 1;
      var marker := Marker(cfg, n, rows[0].at, rows[n - 1].at, seqno, now);
      Enqueued(Db(Insert(rows[n..], marker, cfg.size(marker), now), db.dead, cursors, seqno), sealed + [marker],
          rows[..n])
  }

  function Ids(rows: seq<Row>): set<nat> {
    set i | 0 <= i < |rows| :: rows[i].id
  }

  /** The rows whose id is not among `ids`. */
  function Without(rows: seq<Row>, ids: set<nat>): seq<Row> {
    if rows == [] then []
    else (if rows[0].id in ids then [] else [rows[0]]) + Without(rows[1..], ids)
  }

  /** The rows with an id over the cutoff. */
  function Above(rows: seq<Row>, cutoff: nat): seq<Row> {
    if rows == [] then []
    else (if rows[0].id <= cutoff then [] else [rows[0]]) + Above(rows[1..], cutoff)
  }

  function Batch(db: Db, limit: nat): seq<Row> {
    db.pending[..if limit < |db.pending| then limit else |db.pending|]
  }

  function DeleteBatch(db: Db, batch: seq<Row>): Db {
    db.(pending := Without(db.pending, Ids(batch)))
  }

  function InsertDead(dead: seq<Row>, batch: seq<Row>, at: int): seq<Row>
    decreases |batch|
  {
    if batch == [] then dead
    else InsertDead(Insert(dead, batch[0].envelope, batch[0].bytes, at), batch[1..], at)
  }

  /** Moves a batch to the dead letters and trims those to their own caps. */
  function DeadLetter(db: Db, batch: seq<Row>, now: int): Db {
    if batch == [] then db
    else
      var dead := InsertDead(db.dead, batch, now);
      db.(pending := Without(db.pending, Ids(batch)), dead := dead[Dropped(dead, DEAD_LETTER_CAPS, DEAD_LETTER_CAPS)..])
  }

  // ---- Eviction ----

  /** The plan is the shortest prefix whose removal meets both targets. */
  lemma {:induction false} PlanIsShortest(rows: seq<Row>, targets: Caps)
    ensures Fits(rows[Plan(rows, targets)..], targets)
    ensures forall k :: 0 <= k < Plan(rows, targets) ==> !Fits(rows[k..], targets)
  {
    if rows != [] && !Fits(rows, targets) {
      PlanIsShortest(rows[1..], targets);
      var n := Plan(rows[1..], targets);
      assert rows[1..][n..] == rows[n + 1..];
      forall k | 0 <= k < n + 1
        ensures !Fits(rows[k..], targets)
      {
        if k == 0 {
          assert rows[0..] == rows;
        } else {
          assert rows[1..][k - 1..] == rows[k..];
        }
      }
    } else {
      assert rows[0..] == rows;
    }
  }

  lemma {:induction false} TotalInsert(rows: seq<Row>, row: Row)
    ensures Total(rows + [row]) == Total(rows) + row.bytes
  {
    if rows == [] {
      assert rows + [row] == [row];
    } else {
      assert (rows + [row])[1..] == rows[1..] + [row];
      TotalInsert(rows[1..], row);
    }
  }

  lemma {:induction false} TotalSuffix(rows: seq<Row>, k: nat)
    requires k <= |rows|
    ensures Total(rows[k..]) <= Total(rows)
  {
    if k == 0 {
      assert rows[0..] == rows;
    } else {
      TotalSuffix(rows[1..], k - 1);
      assert rows[1..][k - 1..] == rows[k..];
    }
  }

  /** Removing every row at or below an id is removing the prefix that ends with it. */
  lemma {:induction false} AboveIsSuffix(rows: seq<Row>, n: nat)
    requires Ordered(rows) && 0 < n <= |rows|
    ensures Above(rows, rows[n - 1].id) == rows[n..]
  {
    var rest := rows[1..];
    if n == 1 {
      AboveAll(rest, rows[0].id);
    } else {
      AboveIsSuffix(rest, n - 1);
      assert rest[n - 2] == rows[n - 1] && rest[n - 1..] == rows[n..];
    }
  }

  lemma {:induction false} AboveAll(rows: seq<Row>, cutoff: nat)
    requires forall i :: 0 <= i < |rows| ==> rows[i].id > cutoff
    ensures Above(rows, cutoff) == rows
  {
    if rows != [] {
      AboveAll(rows[1..], cutoff);
    }
  }

  /** The caps the configuration is checked for. */
  predicate ValidCaps(caps: Caps) {
    caps.maxRows >= 1 && caps.maxBytes > OVERFLOW_HEADROOM_BYTES
  }

  /** The rows an enqueue holds just before it looks for overflow. */
  function Inserted(cfg: Config, db: Db, drafts: seq<RecordDraft>, device: Option<string>, now: int): seq<Row> {
    InsertAll(cfg, db.pending, Seal(cfg, device.GetOr(cfg.device), drafts, db.seqno), now)
  }

  /** Eviction drops the shortest oldest-first prefix that meets the targets, and one marker
      saying how many rows that was follows the rest. */
  lemma {:induction false} EvictionIsShortest(
      cfg: Config, db: Db, drafts: seq<RecordDraft>, cursor: Option<Cursor>, device: Option<string>, now: int)
    ensures var e := Enqueue(cfg, db, drafts, cursor, device, now);
            var rows := Inserted(cfg, db, drafts, device, now);
            var n := |e.dropped|;
            && n <= |rows| && e.dropped == rows[..n]
            && (n == 0 <==> Fits(rows, cfg.caps))
            && (n == 0 ==> e.db.pending == rows)
            && (n > 0 ==>
                  && Fits(rows[n..], PendingTargets(cfg.caps))
                  && (forall k :: 0 <= k < n ==> !Fits(rows[k..], PendingTargets(cfg.caps)))
                  && |e.sealed| == |drafts| + 1
                  && var marker := e.sealed[|drafts|];
                     && e.db.pending == Insert(rows[n..], marker, cfg.size(marker), now)
                     && marker.draft == OverflowDraft(n, rows[0].at, rows[n - 1].at, now))
  {
    var rows := Inserted(cfg, db, drafts, device, now);
    var targets := PendingTargets(cfg.caps);
    PlanIsShortest(rows, targets);
    assert rows[0..] == rows;
  }

  /** After an enqueue that evicted, both caps hold exactly when the marker fits what was kept. */
  lemma {:induction false} CapsHoldExactly(
      cfg: Config, db: Db, drafts: seq<RecordDraft>, cursor: Option<Cursor>, device: Option<string>, now: int)
    requires ValidCaps(cfg.caps)
    ensures var e := Enqueue(cfg, db, drafts, cursor, device, now);
            && |e.db.pending| <= cfg.caps.maxRows
            && (e.dropped == [] ==> Fits(e.db.pending, cfg.caps))
            && (e.dropped != [] ==>
                  var last := |e.db.pending| - 1;
                  && last >= 0
                  && Total(e.db.pending[..last]) <= cfg.caps.maxBytes - OVERFLOW_HEADROOM_BYTES
                  && (Fits(e.db.pending, cfg.caps) <==>
                      e.db.pending[last].bytes <= cfg.caps.maxBytes - Total(e.db.pending[..last])))
  {
    hide Enqueue, Inserted;
    EvictionIsShortest(cfg, db, drafts, cursor, device, now);
    var e := Enqueue(cfg, db, drafts, cursor, device, now);
    if e.dropped != [] {
      var last := |e.db.pending| - 1;
      assert e.db.pending == e.db.pending[..last] + [e.db.pending[last]];
      TotalInsert(e.db.pending[..last], e.db.pending[last]);
    }
  }

  const U64_MAX := 0xFFFF_FFFF_FFFF_FFFF

  /** A time in a year of four digits, 0000 to 9999, in milliseconds. */
  predicate Clocked(time: int) { -62_167_219_200_000 <= time <= 253_402_300_799_999 }

  /** What a marker can say: at least one record dropped, none but those sealed before it, under a
      number that fits 64 bits; a single dropped row is the first and the last at once. */
  predicate Markable(dropped: nat, from: int, to: int, seqno: nat, now: int) {
    && 1 <= dropped < seqno <= U64_MAX && (dropped == 1 ==> from == to)
    && Clocked(from) && Clocked(to) && Clocked(now)
  }

  /** The most such a marker may take: the headroom, or the whole table when nothing can be left
      beside it, for it holds one row or all ever sealed were dropped. */
  function MarkerLimit(caps: Caps, dropped: nat, seqno: nat): nat {
    if caps.maxRows == 1 || dropped + 1 == seqno then caps.maxBytes else OVERFLOW_HEADROOM_BYTES
  }

  /** Every marker the buffer can come to write is within its limit. */
  ghost predicate MarkersFit(cfg: Config) {
    forall dropped: nat, from, to, seqno: nat, now :: Markable(dropped, from, to, seqno, now) ==>
      cfg.size(Marker(cfg, dropped, from, to, seqno, now)) <= MarkerLimit(cfg.caps, dropped, seqno)
  }

  /** A table of sealed records, in order, with the counter not behind them. */
  ghost predicate Storable(db: Db) {
    && Ordered(db.pending) && SeqOrdered(db.pending)
    && forall r :: r in db.pending ==> 1 <= r.envelope.seqno <= db.seqno && Clocked(r.at)
  }

  /** An enqueue on a stored table, by a clock in range, with numbers that fit 64 bits. */
  ghost predicate Enqueueable(db: Db, drafts: seq<RecordDraft>, now: int) {
    Storable(db) && db.seqno + |drafts| < U64_MAX && Clocked(now)
  }

  /** The table meets its caps after every enqueue, whatever it held before, perhaps under larger
      caps. */
  ghost predicate CapsAlwaysHold(cfg: Config) {
    forall db: Db, drafts: seq<RecordDraft>, cursor, device, now :: Enqueueable(db, drafts, now) ==>
      Fits(Enqueue(cfg, db, drafts, cursor, device, now).db.pending, cfg.caps)
  }

  /** What the configuration decides: the caps hold after every enqueue exactly when every marker
      fits the room kept for it. */
  lemma {:induction false} CapsHoldForConfig(cfg: Config)
    requires ValidCaps(cfg.caps)
    ensures CapsAlwaysHold(cfg) <==> MarkersFit(cfg)
  {
    hide Enqueue, Marker, Enqueueable, MarkerLimit, Markable;
    if MarkersFit(cfg) {
      forall db: Db, drafts: seq<RecordDraft>, cursor, device, now | Enqueueable(db, drafts, now)
        ensures Fits(Enqueue(cfg, db, drafts, cursor, device, now).db.pending, cfg.caps)
      {
        CapsHold(cfg, db, drafts, cursor, device, now);
      }
    } else {
      var dropped: nat, from, to, seqno: nat, now :| Markable(dropped, from, to, seqno, now)
        && cfg.size(Marker(cfg, dropped, from, to, seqno, now)) > MarkerLimit(cfg.caps, dropped, seqno);
      var db := Overfull(cfg, dropped, from, to, seqno, now);
    }
  }

  lemma {:induction false} CapsHold(
      cfg: Config, db: Db, drafts: seq<RecordDraft>, cursor: Option<Cursor>, device: Option<string>, now: int)
    requires ValidCaps(cfg.caps) && MarkersFit(cfg) && Enqueueable(db, drafts, now)
    ensures Fits(Enqueue(cfg, db, drafts, cursor, device, now).db.pending, cfg.caps)
  {
    hide Enqueue, MarkersFit, Total, Enqueueable;
    var e := Enqueue(cfg, db, drafts, cursor, device, now);
    CapsHoldExactly(cfg, db, drafts, cursor, device, now);
    if e.dropped != [] {
      MarkerWithinLimit(cfg, db, drafts, cursor, device, now);
      if |e.db.pending| == 1 {
        assert e.db.pending[..0] == [];
        LoneTotal(e.db.pending[0]);
      }
    }
  }

  /** The marker is the last row; with others beside it, not all records sealed were dropped. */
  lemma {:induction false} MarkerWithinLimit(
      cfg: Config, db: Db, drafts: seq<RecordDraft>, cursor: Option<Cursor>, device: Option<string>, now: int)
    requires ValidCaps(cfg.caps) && MarkersFit(cfg) && Enqueueable(db, drafts, now)
    requires Enqueue(cfg, db, drafts, cursor, device, now).dropped != []
    ensures var pending := Enqueue(cfg, db, drafts, cursor, device, now).db.pending;
            && pending != [] && |pending| <= cfg.caps.maxRows
            && pending[|pending| - 1].bytes <= (if |pending| == 1 then cfg.caps.maxBytes else OVERFLOW_HEADROOM_BYTES)
  {
    hide Dropped, InsertAll, Seal, Marker, Storable, Clocked;
    CapsHoldExactly(cfg, db, drafts, cursor, device, now);
    var e := Enqueue(cfg, db, drafts, cursor, device, now);
    var n, seqno, first, last := |e.dropped|, db.seqno + |drafts| + 1, e.dropped[0].at, e.dropped[|e.dropped| - 1].at;
    InsertedLength(cfg, db, drafts, device, now);
    StorableLength(db);
    InsertAllClocked(cfg, db.pending, Seal(cfg, device.GetOr(cfg.device), drafts, db.seqno), now);
    assert e.dropped[0] in Inserted(cfg, db, drafts, device, now);
    assert n + |e.db.pending| - 1 < seqno;
    assert Markable(n, first, last, seqno, now);
    assert cfg.size(Marker(cfg, n, first, last, seqno, now)) <= MarkerLimit(cfg.caps, n, seqno);
  }

  lemma {:induction false} InsertedLength(
      cfg: Config, db: Db, drafts: seq<RecordDraft>, device: Option<string>, now: int)
    ensures |Inserted(cfg, db, drafts, device, now)| == |db.pending| + |drafts|
  {
    hide Seal;
    InsertAllLength(cfg, db.pending, Seal(cfg, device.GetOr(cfg.device), drafts, db.seqno), now);
  }

  lemma {:induction false} InsertAllLength(cfg: Config, rows: seq<Row>, envelopes: seq<Envelope>, at: int)
    ensures |InsertAll(cfg, rows, envelopes, at)| == |rows| + |envelopes|
    decreases |envelopes|
  {
    if envelopes != [] {
      InsertAllLength(cfg, Insert(rows, envelopes[0], cfg.size(envelopes[0]), at), envelopes[1..], at);
    }
  }

  lemma {:induction false} InsertAllClocked(cfg: Config, rows: seq<Row>, envelopes: seq<Envelope>, at: int)
    requires Clocked(at) && forall r :: r in rows ==> Clocked(r.at)
    ensures forall r :: r in InsertAll(cfg, rows, envelopes, at) ==> Clocked(r.at)
    decreases |envelopes|
  {
    hide Clocked;
    if envelopes != [] {
      InsertAllClocked(cfg, Insert(rows, envelopes[0], cfg.size(envelopes[0]), at), envelopes[1..], at);
    }
  }

  /** Numbers rise, so there are no more rows than numbers. */
  lemma {:induction false} StorableLength(db: Db)
    requires Storable(db)
    ensures |db.pending| <= db.seqno && forall r :: r in db.pending ==> Clocked(r.at)
  {
    hide Clocked;
    if db.pending != [] {
      var last := |db.pending| - 1;
      assert db.pending[last] in db.pending;
      NumbersRise(db.pending, last);
    }
  }

  lemma {:induction false} NumbersRise(rows: seq<Row>, i: nat)
    requires SeqOrdered(rows) && i < |rows| && forall r :: r in rows ==> r.envelope.seqno >= 1
    ensures rows[i].envelope.seqno > i
  {
    assert rows[i] in rows;
    if i > 0 {
      NumbersRise(rows, i - 1);
    }
  }

  /** `n` rows to drop, the first and the last with the times to be reported. */
  function Droppable(n: nat, from: int, to: int, bytes: nat): (rows: seq<Row>)
    ensures |rows| == n && forall i :: 0 <= i < n ==> rows[i] == Filler(i + 1, bytes, if i == n - 1 then to else from)
  {
    seq(n, i requires 0 <= i < n => Filler(i + 1, bytes, if i == n - 1 then to else from))
  }

  function Filler(id: nat, bytes: nat, at: int): Row {
    Row(id, Envelope("", id, OverflowDraft(0, 0, 0, 0)), bytes, at)
  }

  /** A table whose first rows are over the cap loses those to an enqueue of nothing; the marker of
      that follows the rest. */
  lemma {:induction false} HeadEvicted(cfg: Config, head: seq<Row>, kept: seq<Row>, seqno: nat, now: int)
    requires head != [] && seqno >= 1 && forall i :: 0 <= i < |head| ==> head[i].bytes > cfg.caps.maxBytes
    requires Fits(kept, PendingTargets(cfg.caps))
    ensures var marker := Marker(cfg, |head|, head[0].at, head[|head| - 1].at, seqno, now);
            Enqueue(cfg, Db(head + kept, [], map[], seqno - 1), [], None, None, now).db.pending
            == kept + [Row(NextId(kept), marker, cfg.size(marker), now)]
  {
    hide Fits, PendingTargets, Plan, Total, Marker;
    var rows, n := head + kept, |head|;
    DropsHead(head, kept, cfg.caps);
    assert rows[n..] == kept && rows[0] == head[0] && rows[n - 1] == head[n - 1];
    assert Dropped(rows, cfg.caps, PendingTargets(cfg.caps)) == n;
  }

  /** A table that an enqueue of nothing leaves over its cap, given one marker over its limit. */
  lemma {:induction false} Overfull(
      cfg: Config, dropped: nat, from: int, to: int, seqno: nat, now: int) returns (db: Db)
    requires ValidCaps(cfg.caps) && Markable(dropped, from, to, seqno, now)
    requires cfg.size(Marker(cfg, dropped, from, to, seqno, now)) > MarkerLimit(cfg.caps, dropped, seqno)
    ensures Enqueueable(db, [], now)
    ensures !Fits(Enqueue(cfg, db, [], None, None, now).db.pending, cfg.caps)
  {
    hide Total, Plan, Enqueue, Marker, Storable, Clocked, Droppable;
    var caps := cfg.caps;
    var head := Droppable(dropped, from, to, caps.maxBytes + 1);
    var last := Filler(dropped + 1, caps.maxBytes - OVERFLOW_HEADROOM_BYTES, from);
    var kept := if caps.maxRows == 1 || dropped + 1 == seqno then [] else [last];
    LoneTotal(last);
    HeadEvicted(cfg, head, kept, seqno, now);
    var marker := Marker(cfg, dropped, from, to, seqno, now);
    TotalInsert(kept, Row(NextId(kept), marker, cfg.size(marker), now));
    db := Db(head + kept, [], map[], seqno - 1);
    FillersStorable(db);
  }

  lemma {:induction false} FillersStorable(db: Db)
    requires |db.pending| <= db.seqno
    requires forall i :: 0 <= i < |db.pending| ==>
      db.pending[i].id == db.pending[i].envelope.seqno == i + 1 && Clocked(db.pending[i].at)
    ensures Storable(db)
  {
  }

  lemma LoneTotal(row: Row)
    ensures Total([]) == 0 && Total([row]) == row.bytes
  {
    assert [row][1..] == [];
  }

  /** Rows over the cap go, and what then meets the targets stays. */
  lemma {:induction false} DropsHead(head: seq<Row>, kept: seq<Row>, caps: Caps)
    requires forall i :: 0 <= i < |head| ==> head[i].bytes > caps.maxBytes
    requires Fits(kept, PendingTargets(caps))
    ensures Plan(head + kept, PendingTargets(caps)) == |head|
    ensures head != [] ==> !Fits(head + kept, caps)
  {
    hide Fits, PendingTargets;
    if head == [] {
      assert head + kept == kept;
    } else {
      assert (head + kept)[1..] == head[1..] + kept;
      DropsHead(head[1..], kept, caps);
      OverCaps(head + kept, caps);
    }
  }

  lemma {:induction false} OverCaps(rows: seq<Row>, caps: Caps)
    requires rows != [] && rows[0].bytes > caps.maxBytes
    ensures !Fits(rows, caps) && !Fits(rows, PendingTargets(caps))
  {
  }

  /** The dead letters keep caps of their own: the oldest go, and nothing but the batch leaves
      the queue. */
  lemma {:induction false} DeadLetterExactly(db: Db, batch: seq<Row>, now: int)
    requires batch != []
    ensures var after, letters := DeadLetter(db, batch, now), InsertDead(db.dead, batch, now);
            && after.pending == Without(db.pending, Ids(batch))
            && after.cursors == db.cursors && after.seqno == db.seqno
            && Fits(after.dead, DEAD_LETTER_CAPS)
            && |after.dead| <= |letters| && after.dead == letters[|letters| - |after.dead|..]
            && (forall k :: 0 <= k < |letters| - |after.dead| ==> !Fits(letters[k..], DEAD_LETTER_CAPS))
  {
    hide InsertDead, Without, Fits;
    var letters := InsertDead(db.dead, batch, now);
    PlanIsShortest(letters, DEAD_LETTER_CAPS);
    assert letters[0..] == letters;
  }
}
