/** The overflow marker as it is written (src/runtime/buffer.rs, `overflow_draft` and
    `insert_pending`; src/runtime/mod.rs, `Envelope`), and what its length means for the caps. */
module Markers {
  import opened Records
  import opened Options
  import opened Tables
  import opened Delivery
  import Keys

  /** A marker with its texts, numbers and times left out. */
  const MARKER_FORM :=
      "{\"provider\":\"windows\",\"device\":\"\",\"ts\":\"\",\"seq\":,\"kind\":\"buffer_overflow\",\"dedup_key\":\"\","
    + "\"degraded\":false,\"payload\":{\"details\":{\"dropped\":,\"dropped_from\":\"\",\"dropped_to\":\"\"}}}"

  const KEY_CHARS := 16
  const TIME_CHARS := 24
  const U64_DIGITS := 20

  /** The longest a marker gets without its device name. */
  const MARKER_BYTES := 303

  /** What a unit of a text takes in JSON: quotes, backslashes and the five named controls two, any
      other control character six. */
  function UnitBytes(c: char): nat {
    if c in {'"', '\\', '\U{08}', '\t', '\n', '\U{0C}', '\r'} then 2 else if c < ' ' then 6 else 1
  }

  function JsonBytes(text: string): nat {
    if text == "" then 0 else UnitBytes(text[0]) + JsonBytes(text[1..])
  }

  function WrittenBytes(device: string, dropped: nat, seqno: nat): nat {
    |MARKER_FORM| + KEY_CHARS + 3 * TIME_CHARS + JsonBytes(device) + |Keys.Dec(dropped)| + |Keys.Dec(seqno)|
  }

  /** Markers are measured as they are written. */
  ghost predicate MarkersWritten(cfg: Config) {
    forall dropped: nat, from, to, seqno: nat, now :: Markable(dropped, from, to, seqno, now) ==>
      cfg.size(Marker(cfg, dropped, from, to, seqno, now)) == WrittenBytes(cfg.device, dropped, seqno)
  }

  function Power10(k: nat): nat { if k == 0 then 1 else 10 * Power10(k - 1) }

  lemma {:induction false} DigitsExactly(n: nat, k: nat)
    requires k >= 1
    ensures |Keys.DecNat(n)| <= k <==> n < Power10(k)
  {
    if k == 1 {
      assert Power10(1) == 10;
      LongerThanOne(n);
    } else if n >= 10 {
      DigitsExactly(n / 10, k - 1);
    } else {
      PowerGrows(k);
    }
  }

  lemma LongerThanOne(n: nat)
    ensures |Keys.DecNat(n)| >= 1 && (n >= 10 ==> |Keys.DecNat(n)| >= 2)
  {
  }

  lemma {:induction false} PowerGrows(k: nat)
    requires k >= 1
    ensures Power10(k) >= 10
  {
    if k > 1 {
      PowerGrows(k - 1);
    }
  }

  /** Numbers of 64 bits take at most twenty digits, and the last of them do. */
  lemma {:induction false} U64Digits(n: nat)
    requires n <= U64_MAX
    ensures |Keys.Dec(n)| <= U64_DIGITS && (n >= U64_MAX - 2 ==> |Keys.Dec(n)| == U64_DIGITS)
  {
    assert Power10(2) == 100 && Power10(4) == 10_000 && Power10(6) == 1_000_000 && Power10(8) == 100_000_000;
    assert Power10(10) == 10_000_000_000 && Power10(12) == 1_000_000_000_000 && Power10(14) == 100_000_000_000_000;
    assert Power10(16) == 10_000_000_000_000_000 && Power10(18) == 1_000_000_000_000_000_000;
    assert Power10(19) == 10_000_000_000_000_000_000 && Power10(20) == 100_000_000_000_000_000_000;
    DigitsExactly(n, 20);
    DigitsExactly(n, 19);
  }

  lemma FormLength()
    ensures |MARKER_FORM| + KEY_CHARS + 3 * TIME_CHARS + 2 * U64_DIGITS == MARKER_BYTES
  {
  }

  /** The room a device name has: what a marker leaves of the headroom, or of the whole table when
      that holds a single row. */
  function NameRoom(caps: Caps): int {
    (if caps.maxRows == 1 then caps.maxBytes else OVERFLOW_HEADROOM_BYTES) - MARKER_BYTES
  }

  /** What the device name decides: the caps hold after every enqueue exactly when the name takes no
      more than 209 bytes in JSON; with a table of one row, no more than the cap less 303. */
  lemma {:induction false} CapsHoldForDevice(cfg: Config)
    requires ValidCaps(cfg.caps) && MarkersWritten(cfg)
    ensures CapsAlwaysHold(cfg) <==> JsonBytes(cfg.device) <= NameRoom(cfg.caps)
    ensures cfg.caps.maxRows >= 2 ==> NameRoom(cfg.caps) == 209
  {
    hide CapsAlwaysHold, Marker, WrittenBytes, Clocked;
    CapsHoldForConfig(cfg);
    if JsonBytes(cfg.device) <= NameRoom(cfg.caps) {
      forall dropped: nat, from, to, seqno: nat, now | Markable(dropped, from, to, seqno, now)
        ensures cfg.size(Marker(cfg, dropped, from, to, seqno, now)) <= MarkerLimit(cfg.caps, dropped, seqno)
      {
        WrittenAtMost(cfg.device, dropped, seqno);
      }
    } else {
      Midnight();
      WrittenAtMost(cfg.device, U64_MAX - 2, U64_MAX);
      assert Markable(U64_MAX - 2, 0, 0, U64_MAX, 0);
      assert cfg.size(Marker(cfg, U64_MAX - 2, 0, 0, U64_MAX, 0)) > MarkerLimit(cfg.caps, U64_MAX - 2, U64_MAX);
    }
  }

  lemma Midnight()
    ensures Clocked(0)
  {
  }

  lemma {:induction false} WrittenAtMost(device: string, dropped: nat, seqno: nat)
    requires dropped <= U64_MAX && seqno <= U64_MAX
    ensures WrittenBytes(device, dropped, seqno) <= MARKER_BYTES + JsonBytes(device)
    ensures dropped >= U64_MAX - 2 && seqno == U64_MAX ==>
              WrittenBytes(device, dropped, seqno) == MARKER_BYTES + JsonBytes(device)
  {
    hide Keys.Dec, JsonBytes;
    U64Digits(dropped);
    U64Digits(seqno);
    FormLength();
  }

  /** Two enqueues from nothing, of one record each. */
  function TwoSubmits(small: RecordDraft, big: RecordDraft): seq<Step> {
    [Submit([small], None, None, 0, true), Submit([big], None, None, 0, true)]
  }

  /** The case is real and near: with a name of 248 bytes or more, a record over the headroom and then
      one that fills what eviction aims for leave the table over its cap. */
  lemma {:induction false} MarkerOverHeadroom(cfg: Config, small: RecordDraft, big: RecordDraft)
    requires ValidCaps(cfg.caps) && cfg.caps.maxRows >= 2 && MarkersWritten(cfg) && JsonBytes(cfg.device) >= 248
    requires OVERFLOW_HEADROOM_BYTES < cfg.size(SealOne(cfg, cfg.device, small, 1)) <= cfg.caps.maxBytes
    requires cfg.size(SealOne(cfg, cfg.device, big, 2)) == cfg.caps.maxBytes - OVERFLOW_HEADROOM_BYTES
    ensures Fits(Run(cfg, FRESH, TwoSubmits(small, big)[..1]).db.pending, cfg.caps)
    ensures !Fits(Run(cfg, FRESH, TwoSubmits(small, big)).db.pending, cfg.caps)
  {
    hide Marker, JsonBytes, Apply, WrittenBytes, MarkersWritten;
    var steps := TwoSubmits(small, big);
    var first := FirstSubmit(cfg, small, steps[0]);
    var end := SecondSubmit(cfg, small, big, first, steps[1]);
    assert steps[..1] == [steps[0]] && steps[..1][1..] == [] && steps[1..] == [steps[1]] && steps[1..][1..] == [];
    assert Run(cfg, FRESH, steps[..1]) == Run(cfg, first, []);
    assert Run(cfg, FRESH, steps) == Run(cfg, first, [steps[1]]) == Run(cfg, end, []);
  }

  function FirstRow(cfg: Config, small: RecordDraft): Row {
    var envelope := SealOne(cfg, cfg.device, small, 1);
    Row(1, envelope, cfg.size(envelope), 0)
  }

  lemma {:induction false} FirstSubmit(cfg: Config, small: RecordDraft, s: Step) returns (w: World)
    requires s == Submit([small], None, None, 0, true) && ValidCaps(cfg.caps)
    requires cfg.size(SealOne(cfg, cfg.device, small, 1)) <= cfg.caps.maxBytes
    ensures w == Apply(cfg, FRESH, s) && w.db.pending == [FirstRow(cfg, small)] && w.db.seqno == 1
    ensures Fits(w.db.pending, cfg.caps)
  {
    hide SealOne;
    w := Apply(cfg, FRESH, s);
    OneMore(cfg, [], s, 0);
    LoneTotal(FirstRow(cfg, small));
    assert Inserted(cfg, EMPTY, [small], None, 0) == [FirstRow(cfg, small)];
  }

  lemma {:induction false} SecondSubmit(cfg: Config, small: RecordDraft, big: RecordDraft, w: World, s: Step)
      returns (w': World)
    requires s == Submit([big], None, None, 0, true) && ValidCaps(cfg.caps) && cfg.caps.maxRows >= 2
    requires w.db.pending == [FirstRow(cfg, small)] && w.db.seqno == 1
    requires OVERFLOW_HEADROOM_BYTES < FirstRow(cfg, small).bytes <= cfg.caps.maxBytes
    requires cfg.size(SealOne(cfg, cfg.device, big, 2)) == cfg.caps.maxBytes - OVERFLOW_HEADROOM_BYTES
    requires MarkersWritten(cfg) && JsonBytes(cfg.device) >= 248
    ensures w' == Apply(cfg, w, s) && !Fits(w'.db.pending, cfg.caps)
  {
    hide SealOne, Marker, JsonBytes, MarkersWritten, Enqueue;
    w' := Apply(cfg, w, s);
    var envelope := SealOne(cfg, cfg.device, big, 2);
    var a, b := FirstRow(cfg, small), Row(2, envelope, cfg.size(envelope), 0);
    OneMore(cfg, [a], s, 1);
    assert Inserted(cfg, w.db, [big], None, 0) == [a] + [b] == [a, b];
    OlderDropped(a, b, cfg.caps);
    EvictionIsShortest(cfg, w.db, [big], None, None, 0);
    var marker := Marker(cfg, 1, 0, 0, 3, 0);
    SecondMarker(cfg, w.db, big);
    assert [a, b][1..] == [b];
    var last := Row(3, marker, cfg.size(marker), 0);
    assert w'.db.pending == [b] + [last];
    LoneTotal(b);
    TotalInsert([b], last);
    FirstMarkerBytes(cfg);
  }

  lemma {:induction false} SecondMarker(cfg: Config, db: Db, big: RecordDraft)
    requires db.seqno == 1 && |Enqueue(cfg, db, [big], None, None, 0).dropped| == 1
    requires Inserted(cfg, db, [big], None, 0)[0].at == 0
    ensures Enqueue(cfg, db, [big], None, None, 0).sealed[1] == Marker(cfg, 1, 0, 0, 3, 0)
  {
    hide Dropped, InsertAll, SealOne;
  }

  lemma {:induction false} FirstMarkerBytes(cfg: Config)
    requires MarkersWritten(cfg)
    ensures cfg.size(Marker(cfg, 1, 0, 0, 3, 0)) == MARKER_BYTES - 2 * U64_DIGITS + 2 + JsonBytes(cfg.device)
  {
    hide JsonBytes, Marker;
    assert Markable(1, 0, 0, 3, 0);
    FormLength();
  }

  lemma {:induction false} OlderDropped(a: Row, b: Row, caps: Caps)
    requires ValidCaps(caps) && caps.maxRows >= 2
    requires a.bytes > OVERFLOW_HEADROOM_BYTES && b.bytes == caps.maxBytes - OVERFLOW_HEADROOM_BYTES
    ensures !Fits([a, b], caps) && Plan([a, b], PendingTargets(caps)) == 1
  {
    assert [a, b][1..] == [b] && [b][1..] == [];
    assert Total([b]) == b.bytes && Total([a, b]) == a.bytes + b.bytes;
    assert Plan([b], PendingTargets(caps)) == 0;
  }
}
