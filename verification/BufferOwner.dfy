/** The buffer's owner thread (src/runtime/buffer.rs): tables changed in place, one command at a
    time. A statement that fails rolls its transaction back, so a refused command changes nothing. */
module BufferOwner {
  import opened Options
  import opened Records
  import opened Tables

  datatype Evicted = Evicted(cutoff: nat, dropped: nat, droppedFrom: int, droppedTo: int)

  class Buffer {
    const cfg: Config
    var pending: seq<Row>
    var dead: seq<Row>
    var cursors: map<CursorKey, CursorValue>
    var seqno: nat

    ghost predicate Valid()
      reads this
    {
      Ordered(pending) && Ordered(dead)
    }

    /** The stored state. */
    function Contents(): Db
      reads this
    {
      Db(pending, dead, cursors, seqno)
    }

    constructor (cfg: Config)
      ensures Valid() && this.cfg == cfg && Contents() == EMPTY
    {
      this.cfg := cfg;
      pending, dead, cursors, seqno := [], [], map[], 0;
    }

    /** Walks the candidates oldest first until both targets are met. */
    static method PlanEviction(candidates: seq<Row>, rowTarget: nat, byteTarget: nat) returns (plan: Option<Evicted>)
      ensures var n := Plan(candidates, Caps(rowTarget, byteTarget));
              plan == if n == 0 then None
                  else Some(Evicted(candidates[n - 1].id, n, candidates[0].at, candidates[n - 1].at))
    {
      var rows: nat, bytes: nat := |candidates|, Total(candidates);
      var dropped: nat := 0;
      assert candidates[0..] == candidates;
      while rows > rowTarget || bytes > byteTarget
        invariant dropped <= |candidates| && rows == |candidates| - dropped
        invariant bytes == Total(candidates[dropped..])
        invariant Plan(candidates, Caps(rowTarget, byteTarget))
            == dropped + Plan(candidates[dropped..], Caps(rowTarget, byteTarget))
        decreases rows
      {
        if dropped == |candidates| {
          break;
        }
        assert candidates[dropped..][1..] == candidates[dropped + 1..];
        rows := rows - 1;
        bytes := SatSub(bytes, candidates[dropped].bytes);
        dropped := dropped + 1;
      }
      if dropped == 0 {
        return None;
      }
      return Some(Evicted(candidates[dropped - 1].id, dropped, candidates[0].at, candidates[dropped - 1].at));
    }

    /** Seals each draft under the next number and inserts it. */
    method InsertDrafts(
        drafts: seq<RecordDraft>, device: string, now: int) returns (sealed: seq<Envelope>, rows: seq<Row>)
      requires Valid()
      ensures sealed == Seal(cfg, device, drafts, seqno)
      ensures rows == InsertAll(cfg, pending, sealed, now) && Ordered(rows)
    {
      hide Ordered, Insert;
      ghost var all := Seal(cfg, device, drafts, seqno);
      rows, sealed := pending, [];
      for i := 0 to |drafts|
        invariant sealed == all[..i] && Ordered(rows)
        invariant InsertAll(cfg, pending, all, now) == InsertAll(cfg, rows, all[i..], now)
      {
        var envelope := SealOne(cfg, device, drafts[i], seqno + |sealed| + 1);
        assert envelope == all[i] && all[i..][1..] == all[i + 1..];
        InsertOrdered(rows, envelope, cfg.size(envelope), now);
        rows := Insert(rows, envelope, cfg.size(envelope), now);
        sealed := sealed + [envelope];
      }
      assert sealed == all && all[|drafts|..] == [];
    }

    /** Drops the oldest rows of a table that is over `caps` until it meets `targets`. */
    static method Evict(rows: seq<Row>, caps: Caps, targets: Caps) returns (left: seq<Row>, plan: Option<Evicted>)
      requires Ordered(rows)
      ensures var n := Dropped(rows, caps, targets);
              && left == rows[n..] && Ordered(left)
              && plan == if n == 0 then None else Some(Evicted(rows[n - 1].id, n, rows[0].at, rows[n - 1].at))
    {
      assert rows[0..] == rows;
      if Fits(rows, caps) {
        return rows, None;
      }
      plan := PlanEviction(rows, targets.maxRows, targets.maxBytes);
      if plan.None? {
        return rows, None;
      }
      AboveIsSuffix(rows, plan.value.dropped);
      left := Above(rows, plan.value.cutoff);
    }

    /** Seals drafts, stores their cursor and keeps the caps, in one transaction that `commits`
        or leaves everything as it was. */
    method Enqueue(drafts: seq<RecordDraft>, cursor: Option<Cursor>, device: Option<string>, now: int, commits: bool)
        returns (r: Option<seq<Envelope>>)
      requires Valid()
      modifies this
      ensures Valid()
      ensures !commits ==> r == None && Contents() == old(Contents())
      ensures commits ==> var e := Tables.Enqueue(cfg, old(Contents()), drafts, cursor, device, now);
                          Contents() == e.db && r == Some(e.sealed)
    {
      hide Seal, InsertAll, Dropped, SealOne, PendingTargets, Plan, Ordered, Marker, Insert;
      var sealed, rows := InsertDrafts(drafts, device.GetOr(cfg.device), now);
      var next := seqno + |sealed|;
      var stored := if cursor.Some? then cursors[cursor.value.key := cursor.value.value] else cursors;
      ghost var inserted := rows;
      var plan;
      rows, plan := Evict(rows, cfg.caps, PendingTargets(cfg.caps));
      assert inserted[0..] == inserted;
      if plan.Some? {
        next := next + 1;
        var marker := Marker(cfg, plan.value.dropped, plan.value.droppedFrom, plan.value.droppedTo, next, now);
        InsertOrdered(rows, marker, cfg.size(marker), now);
        rows := Insert(rows, marker, cfg.size(marker), now);
        sealed := sealed + [marker];
      }
      if !commits {
        return None;
      }
      pending, cursors, seqno := rows, stored, next;
      return Some(sealed);
    }

    /** The oldest rows, at most `limit`. */
    method TakeBatch(limit: nat) returns (batch: seq<Row>)
      requires Valid()
      ensures batch == Batch(Contents(), limit)
    {
      batch := [];
      while |batch| < limit && |batch| < |pending|
        invariant |batch| <= limit && |batch| <= |pending| && batch == pending[..|batch|]
        decreases |pending| - |batch|
      {
        batch := batch + [pending[|batch|]];
      }
    }

    /** Deletes one row for every id given, if it still exists. */
    method DeleteBatch(batch: seq<Row>)
      requires Valid()
      modifies this
      ensures Valid()
      ensures Contents() == Tables.DeleteBatch(old(Contents()), batch)
    {
      hide Without, Ids, Ordered;
      var rows := pending;
      WithoutNone(pending);
      for i := 0 to |batch|
        modifies {}
        invariant rows == Without(pending, Ids(batch[..i]))
        invariant Ordered(rows)
      {
        WithoutOneMore(pending, batch, i);
        WithoutOrdered(rows, {batch[i].id});
        rows := Without(rows, {batch[i].id});
      }
      assert batch[..|batch|] == batch;
      pending := rows;
    }

    /** Stores each row of a batch among the dead letters and deletes it from the queue. */
    method MoveRows(batch: seq<Row>, now: int) returns (rows: seq<Row>, letters: seq<Row>)
      requires Valid()
      ensures rows == Without(pending, Ids(batch)) && Ordered(rows)
      ensures letters == InsertDead(dead, batch, now) && Ordered(letters)
    {
      hide Without, Ids;
      rows, letters := pending, dead;
      WithoutNone(pending);
      for i := 0 to |batch|
        invariant rows == Without(pending, Ids(batch[..i]))
        invariant Ordered(rows) && Ordered(letters)
        invariant InsertDead(dead, batch, now) == InsertDead(letters, batch[i..], now)
      {
        assert batch[i..][1..] == batch[i + 1..];
        letters := Insert(letters, batch[i].envelope, batch[i].bytes, now);
        WithoutOneMore(pending, batch, i);
        WithoutOrdered(rows, {batch[i].id});
        rows := Without(rows, {batch[i].id});
      }
      assert batch[..|batch|] == batch && batch[|batch|..] == [];
    }

    /** Moves a batch to the dead letters, then trims those to their own caps. */
    method DeadLetter(batch: seq<Row>, now: int)
      requires Valid()
      modifies this
      ensures Valid()
      ensures Contents() == Tables.DeadLetter(old(Contents()), batch, now)
    {
      hide Without, Ids, Dropped, InsertDead;
      if batch == [] {
        return;
      }
      var rows, letters := MoveRows(batch, now);
      var trimmed, _ := Evict(letters, DEAD_LETTER_CAPS, DEAD_LETTER_CAPS);
      pending, dead := rows, trimmed;
    }

    method ReadCursor(key: CursorKey) returns (value: Option<CursorValue>)
      ensures value == if key in cursors then Some(cursors[key]) else None
    {
      if key in cursors {
        return Some(cursors[key]);
      }
      return None;
    }
  }

  lemma {:induction false} InsertOrdered(rows: seq<Row>, envelope: Envelope, bytes: nat, at: int)
    requires Ordered(rows)
    ensures Ordered(Insert(rows, envelope, bytes, at))
  {
  }

  lemma {:induction false} WithoutOrdered(rows: seq<Row>, ids: set<nat>)
    requires Ordered(rows)
    ensures Ordered(Without(rows, ids))
    ensures forall r :: r in Without(rows, ids) <==> r in rows && r.id !in ids
  {
    if rows != [] {
      WithoutOrdered(rows[1..], ids);
    }
  }

  lemma {:induction false} WithoutTwice(rows: seq<Row>, a: set<nat>, b: set<nat>)
    ensures Without(Without(rows, a), b) == Without(rows, a + b)
  {
    if rows != [] {
      WithoutTwice(rows[1..], a, b);
      assert [] + Without(rows[1..], a) == Without(rows[1..], a);
      assert [] + Without(rows[1..], a + b) == Without(rows[1..], a + b);
      if rows[0].id !in a {
        assert ([rows[0]] + Without(rows[1..], a))[1..] == Without(rows[1..], a);
      }
    }
  }

  lemma {:induction false} WithoutNone(rows: seq<Row>)
    ensures Without(rows, {}) == Without(rows, Ids([])) == rows
  {
    if rows != [] {
      WithoutNone(rows[1..]);
    }
  }

  lemma {:induction false} WithoutOneMore(rows: seq<Row>, batch: seq<Row>, i: nat)
    requires i < |batch|
    ensures Without(Without(rows, Ids(batch[..i])), {batch[i].id}) == Without(rows, Ids(batch[..i + 1]))
  {
    hide Without;
    WithoutTwice(rows, Ids(batch[..i]), {batch[i].id});
    assert Ids(batch[..i]) + {batch[i].id} == Ids(batch[..i + 1]) by {
      assert forall j :: 0 <= j < i ==> batch[..i][j] == batch[..i + 1][j];
      assert batch[..i + 1][i] == batch[i];
    }
  }
}
