/** What the transactions of the buffer (src/runtime/buffer.rs) leave behind, field by field: the
    sealed records and rows of an enqueue, the dead letters of a batch that was given up. */
module Effects {
  import opened Options
  import opened Records
  import opened Tables

  // ---- Enqueue ----

  /** The envelope is the draft's, under a device and a number, with its payload redacted. */
  ghost predicate SealedAs(cfg: Config, device: Option<string>, draft: RecordDraft, seqno: nat, e: Envelope) {
    && e.device == (match device case Some(d) => d case None => cfg.device) && e.seqno == seqno
    && e.draft.provider == draft.provider && e.draft.kind == draft.kind && e.draft.ts == draft.ts
    && e.draft.degraded == draft.degraded && e.draft.key == draft.key
    && e.draft.payload == cfg.redact(draft.payload)
  }

  /** The row was stored at `at` with the length of its envelope, under the id after the last. */
  ghost predicate StoredAs(cfg: Config, rows: seq<Row>, k: nat, envelope: Envelope, at: int)
    requires k < |rows|
  {
    && rows[k].envelope == envelope && rows[k].bytes == cfg.size(envelope) && rows[k].at == at
    && rows[k].id == (if k == 0 then 1 else rows[k - 1].id + 1)
  }

  /** The rows from `p` on were stored one after the other. */
  ghost predicate StoredFrom(cfg: Config, rows: seq<Row>, p: nat, envelopes: seq<Envelope>, at: int) {
    |rows| <= p + |envelopes|
    && forall i :: 0 <= i < |rows| - p ==> var k := p + i; StoredAs(cfg, rows, k, envelopes[i], at)
  }

  /** The marker is the daemon's own record of what was dropped. */
  ghost predicate MarksDropped(cfg: Config, dropped: seq<Row>, seqno: nat, now: int, e: Envelope)
    requires dropped != []
  {
    && e.device == cfg.device && e.seqno == seqno
    && e.draft.provider == Windows && e.draft.kind == BufferOverflow && e.draft.ts == now && !e.draft.degraded
    && e.draft.key == WindowsKey
    && e.draft.payload == map["details" := Details(|dropped|, dropped[0].at, dropped[|dropped| - 1].at)]
  }

  lemma {:induction false} InsertAllExactly(cfg: Config, rows: seq<Row>, envelopes: seq<Envelope>, at: int)
    ensures var all := InsertAll(cfg, rows, envelopes, at);
            && |all| == |rows| + |envelopes| && all[..|rows|] == rows
            && StoredFrom(cfg, all, |rows|, envelopes, at)
    decreases |envelopes|
  {
    if envelopes == [] {
      assert rows[..|rows|] == rows;
    } else {
      var more, p := Insert(rows, envelopes[0], cfg.size(envelopes[0]), at), |rows|;
      var all := InsertAll(cfg, rows, envelopes, at);
      InsertAllExactly(cfg, more, envelopes[1..], at);
      PrefixAgrees(all, more, p);
      forall i | 0 <= i < |all| - p
        ensures StoredAs(cfg, all, p + i, envelopes[i], at)
      {
        if i > 0 {
          assert envelopes[i] == envelopes[1..][i - 1];
          assert StoredAs(cfg, all, |more| + (i - 1), envelopes[1..][i - 1], at);
        }
      }
    }
  }

  /** A prefix of a prefix, and the element after it. */
  lemma PrefixAgrees(all: seq<Row>, more: seq<Row>, p: nat)
    requires |more| == p + 1 <= |all| && all[..p + 1] == more
    ensures all[..p] == more[..p] && all[p] == more[p] && (p > 0 ==> all[p - 1] == more[p - 1])
  {
    assert all[..p] == all[..p + 1][..p] && all[p] == all[..p + 1][p];
  }

  /** The queue before eviction is what went and what stayed of it. */
  function Before(e: Enqueued): seq<Row> {
    e.dropped + (if e.dropped == [] || e.db.pending == [] then e.db.pending else e.db.pending[..|e.db.pending| - 1])
  }

  /** What an enqueue does: each draft is sealed under the device it came with, else the daemon's own,
      and the next number, and stored behind the queue; the rest of the queue is as it was, but for the
      oldest rows dropped; a marker is the last row of all. Only the cursor given changes. */
  lemma {:induction false} EnqueueExactly(
      cfg: Config, db: Db, drafts: seq<RecordDraft>, cursor: Option<Cursor>, device: Option<string>, now: int)
    ensures var e := Enqueue(cfg, db, drafts, cursor, device, now);
            var rows, p, last := Before(e), |db.pending|, |e.db.pending| - 1;
            && |e.sealed| == |drafts| + (if e.dropped == [] then 0 else 1)
            && (forall i :: 0 <= i < |drafts| ==> SealedAs(cfg, device, drafts[i], db.seqno + 1 + i, e.sealed[i]))
            && |rows| == p + |drafts| && rows[..p] == db.pending
            && StoredFrom(cfg, rows, p, e.sealed, now)
            && (e.dropped != [] ==>
                  && e.db.pending != [] && MarksDropped(cfg, e.dropped, e.db.seqno, now, e.sealed[|drafts|])
                  && StoredAs(cfg, e.db.pending, last, e.sealed[|drafts|], now))
            && e.db.seqno == db.seqno + |e.sealed| && e.db.dead == db.dead
            && (forall key :: key in e.db.cursors <==> key in db.cursors || (cursor.Some? && key == cursor.value.key))
            && (forall key :: key in e.db.cursors ==>
                  e.db.cursors[key] ==
                  if cursor.Some? && key == cursor.value.key then cursor.value.value else db.cursors[key])
  {
    hide InsertAll, Dropped, StoredAs, SealedAs, MarksDropped, Insert, Marker;
    var sealed := Seal(cfg, device.GetOr(cfg.device), drafts, db.seqno);
    InsertAllExactly(cfg, db.pending, sealed, now);
    DraftsSealed(cfg, drafts, device, db.seqno);
    EnqueueParts(cfg, db, drafts, cursor, device, now);
    var e, rows := Enqueue(cfg, db, drafts, cursor, device, now), InsertAll(cfg, db.pending, sealed, now);
    if e.dropped != [] {
      assert e.dropped[0] == rows[0] && e.dropped[|e.dropped| - 1] == rows[|e.dropped| - 1];
      InsertedLast(rows[|e.dropped|..], e.sealed[|drafts|], cfg.size(e.sealed[|drafts|]), now);
      MarkerMarks(cfg, e.dropped, e.db.seqno, now);
      InsertStores(cfg, rows[|e.dropped|..], e.sealed[|drafts|], now);
    }
  }

  lemma {:induction false} DraftsSealed(cfg: Config, drafts: seq<RecordDraft>, device: Option<string>, seqno: nat)
    ensures var sealed := Seal(cfg, device.GetOr(cfg.device), drafts, seqno);
            forall i :: 0 <= i < |drafts| ==> SealedAs(cfg, device, drafts[i], seqno + 1 + i, sealed[i])
  {
  }

  lemma {:induction false} EnqueueParts(
      cfg: Config, db: Db, drafts: seq<RecordDraft>, cursor: Option<Cursor>, device: Option<string>, now: int)
    ensures var e := Enqueue(cfg, db, drafts, cursor, device, now);
            var sealed := Seal(cfg, device.GetOr(cfg.device), drafts, db.seqno);
            var rows := InsertAll(cfg, db.pending, sealed, now);
            var n := |e.dropped|;
            && Before(e) == rows && n <= |rows| && e.dropped == rows[..n] && e.db.seqno == db.seqno + |e.sealed|
            && e.db.dead == db.dead
            && (n == 0 ==> e.sealed == sealed)
            && (n > 0 ==>
                  var marker := Marker(cfg, n, rows[0].at, rows[n - 1].at, e.db.seqno, now);
                  e.sealed == sealed + [marker]
                  && e.db.pending == Insert(rows[n..], marker, cfg.size(marker), now))
  {
    hide InsertAll, Dropped, Marker, Seal, PendingTargets, Enqueue, Insert;
    var sealed := Seal(cfg, device.GetOr(cfg.device), drafts, db.seqno);
    var rows := InsertAll(cfg, db.pending, sealed, now);
    var n := Dropped(rows, cfg.caps, PendingTargets(cfg.caps));
    EnqueueUnfolds(cfg, db, drafts, cursor, device, now);
    if n == 0 {
      assert [] + rows == rows && rows[..0] == [];
    } else {
      var marker := Marker(cfg, n, rows[0].at, rows[n - 1].at, db.seqno + |drafts| + 1, now);
      CutAndInserted(rows, n, marker, cfg.size(marker), now);
    }
  }

  lemma {:induction false} EnqueueUnfolds(
      cfg: Config, db: Db, drafts: seq<RecordDraft>, cursor: Option<Cursor>, device: Option<string>, now: int)
    ensures var sealed := Seal(cfg, device.GetOr(cfg.device), drafts, db.seqno);
            var rows := InsertAll(cfg, db.pending, sealed, now);
            var cursors := if cursor.Some? then db.cursors[cursor.value.key := cursor.value.value] else db.cursors;
            var n := Dropped(rows, cfg.caps, PendingTargets(cfg.caps));
            var seqno := db.seqno + |drafts| + 1;
            Enqueue(cfg, db, drafts, cursor, device, now) ==
            if n == 0 then Enqueued(Db(rows, db.dead, cursors, seqno - 1), sealed, [])
            else var marker := Marker(cfg, n, rows[0].at, rows[n - 1].at, seqno, now);
                 Enqueued(Db(Insert(rows[n..], marker, cfg.size(marker), now), db.dead, cursors, seqno),
                          sealed + [marker], rows[..n])
  {
    hide InsertAll, Dropped, Marker, Seal, PendingTargets, Insert;
  }

  lemma {:induction false} CutAndInserted(rows: seq<Row>, n: nat, envelope: Envelope, bytes: nat, at: int)
    requires n <= |rows|
    ensures var all := Insert(rows[n..], envelope, bytes, at);
            all != [] && rows[..n] + all[..|all| - 1] == rows
  {
  }

  lemma {:induction false} MarkerMarks(cfg: Config, dropped: seq<Row>, seqno: nat, now: int)
    requires dropped != []
    ensures var marker := Marker(cfg, |dropped|, dropped[0].at, dropped[|dropped| - 1].at, seqno, now);
            MarksDropped(cfg, dropped, seqno, now, marker)
  {
  }

  lemma {:induction false} InsertStores(cfg: Config, rows: seq<Row>, envelope: Envelope, at: int)
    ensures var all := Insert(rows, envelope, cfg.size(envelope), at);
            StoredAs(cfg, all, |rows|, envelope, at)
  {
  }

  lemma InsertedLast(rows: seq<Row>, envelope: Envelope, bytes: nat, at: int)
    ensures |Insert(rows, envelope, bytes, at)| == |rows| + 1
  {
  }

  // ---- Dead letters ----

  /** A record as it is posted, with its stored length. */
  datatype Letter = Letter(envelope: Envelope, bytes: nat)

  function LettersOf(rows: seq<Row>): (letters: seq<Letter>)
    ensures |letters| == |rows|
  {
    seq(|rows|, i requires 0 <= i < |rows| => Letter(rows[i].envelope, rows[i].bytes))
  }

  function Weight(letters: seq<Letter>): nat {
    if letters == [] then 0 else letters[0].bytes + Weight(letters[1..])
  }

  /** Within 5 000 rows and 50 MiB. */
  predicate LettersFit(letters: seq<Letter>) {
    |letters| <= 5_000 && Weight(letters) <= 52_428_800
  }

  /** The newest of a list of letters, as many as fit. */
  ghost predicate NewestFitting(all: seq<Letter>, kept: seq<Letter>) {
    && |kept| <= |all| && kept == all[|all| - |kept|..] && LettersFit(kept)
    && forall k :: 0 <= k < |all| - |kept| ==> !LettersFit(all[k..])
  }

  /** A batch was stored among the dead letters: behind those there were, at the time given, and the
      newest of all stay that fit the caps. */
  ghost predicate Buries(before: Db, batch: seq<Row>, now: int, after: Db) {
    && NewestFitting(LettersOf(before.dead) + LettersOf(batch), LettersOf(after.dead))
    && (forall i :: 0 <= i < |after.dead| && i >= |after.dead| - |batch| ==> after.dead[i].at == now)
  }

  lemma {:induction false} InsertDeadExactly(dead: seq<Row>, batch: seq<Row>, at: int)
    ensures var all := InsertDead(dead, batch, at);
            && |all| == |dead| + |batch| && LettersOf(all) == LettersOf(dead) + LettersOf(batch)
            && forall i :: |dead| <= i < |all| ==> all[i].at == at
    decreases |batch|
  {
    if batch == [] {
      assert LettersOf(dead) + [] == LettersOf(dead);
    } else {
      var more, all := Insert(dead, batch[0].envelope, batch[0].bytes, at), InsertDead(dead, batch, at);
      InsertDeadExactly(more, batch[1..], at);
      InsertDeadKeeps(more, batch[1..], at);
      var letter := Letter(batch[0].envelope, batch[0].bytes);
      assert LettersOf(more) == LettersOf(dead) + [letter] && LettersOf(batch) == [letter] + LettersOf(batch[1..]);
      assert all[|dead|] == all[..|more|][|dead|] == more[|dead|];
    }
  }

  lemma {:induction false} InsertDeadKeeps(dead: seq<Row>, batch: seq<Row>, at: int)
    ensures var all := InsertDead(dead, batch, at);
            |all| >= |dead| && all[..|dead|] == dead
    decreases |batch|
  {
    if batch != [] {
      var more, all := Insert(dead, batch[0].envelope, batch[0].bytes, at), InsertDead(dead, batch, at);
      InsertDeadKeeps(more, batch[1..], at);
      PrefixAgrees(all, more, |dead|);
    }
  }

  lemma {:induction false} FitsAsLetters(rows: seq<Row>)
    ensures Fits(rows, DEAD_LETTER_CAPS) <==> LettersFit(LettersOf(rows))
  {
    TotalIsWeight(rows);
  }

  lemma {:induction false} TotalIsWeight(rows: seq<Row>)
    ensures Total(rows) == Weight(LettersOf(rows))
  {
    if rows != [] {
      TotalIsWeight(rows[1..]);
      assert LettersOf(rows)[1..] == LettersOf(rows[1..]);
    }
  }

  /** Burying a batch stores every record of it, then trims the oldest letters to the caps. */
  lemma {:induction false} BuryExactly(db: Db, batch: seq<Row>, now: int)
    requires batch != []
    ensures Buries(db, batch, now, DeadLetter(db, batch, now))
  {
    hide InsertDead, Without, Fits, LettersFit;
    var all, after := InsertDead(db.dead, batch, now), DeadLetter(db, batch, now);
    DeadLetterExactly(db, batch, now);
    InsertDeadExactly(db.dead, batch, now);
    var dropped := |all| - |after.dead|;
    FitsAsLetters(after.dead);
    assert LettersOf(after.dead) == LettersOf(all)[dropped..];
    forall k | 0 <= k < dropped
      ensures !LettersFit(LettersOf(all)[k..])
    {
      FitsAsLetters(all[k..]);
      assert LettersOf(all[k..]) == LettersOf(all)[k..];
    }
  }

  lemma {:induction false} WeightAppend(a: seq<Letter>, b: seq<Letter>)
    ensures Weight(a + b) == Weight(a) + Weight(b)
  {
    if a == [] {
      assert a + b == b;
    } else {
      assert (a + b)[1..] == a[1..] + b;
      WeightAppend(a[1..], b);
    }
  }

  /** Trimming as letters come is trimming all of them at once. */
  lemma {:induction false} NewestOfNewest(all: seq<Letter>, kept: seq<Letter>, more: seq<Letter>, left: seq<Letter>)
    requires NewestFitting(all, kept) && NewestFitting(kept + more, left)
    ensures NewestFitting(all + more, left)
  {
    hide LettersFit;
    var whole, recent, gone := all + more, kept + more, |all| - |kept|;
    assert forall k :: gone <= k <= |whole| ==> whole[k..] == recent[k - gone..];
    forall k | 0 <= k < |whole| - |left|
      ensures !LettersFit(whole[k..])
    {
      if k < gone {
        assert whole[k..] == all[k..] + more;
        if LettersFit(whole[k..]) {
          FitsInPart(all[k..], more);
        }
      }
    }
  }

  lemma {:induction false} FitsInPart(a: seq<Letter>, b: seq<Letter>)
    requires LettersFit(a + b)
    ensures LettersFit(a)
  {
    WeightAppend(a, b);
  }
}
