/** Draining the queue against the service (src/runtime/ship.rs). */
module Shipping {
  import opened Options
  import opened Records
  import opened Tables
  import opened BufferOwner
  import opened Effects

  const MAX_BATCH := 500
  const MIN_BATCH := 10
  const USIZE_MAX := 0xFFFF_FFFF_FFFF_FFFF

  /** The counts of a 200 whose body has the documented shape. */
  datatype ServiceResponse = ServiceResponse(accepted: nat, duplicates: nat, rejected: nat)

  /** What a post comes back with: a transport error, or a status and its body. */
  datatype Answer = NoAnswer | Http(status: nat, body: Option<ServiceResponse>)

  datatype Disposition = Delete | Keep | Bury | Shrink

  datatype Progress = Idle | Shipped(count: nat) | Kept | DeadLettered(count: nat) | Shrunk(batchSize: nat)

  function SaturatingAdd(a: nat, b: nat): nat {
    if a + b > USIZE_MAX then USIZE_MAX else a + b
  }

  function DecideAccepted(body: Option<ServiceResponse>, batchLen: nat): Disposition {
    match body
    case None => Keep
    case Some(ServiceResponse(accepted, duplicates, rejected)) =>
      if SaturatingAdd(SaturatingAdd(accepted, duplicates), rejected) != batchLen then Keep else Delete
  }

  function Decide(answer: Answer, batchLen: nat): Disposition {
    match answer
    case NoAnswer => Keep
    case Http(status, body) =>
      if status == 200 then DecideAccepted(body, batchLen)
      else if status in {401, 403, 404, 405, 407} then Keep
      else if status in {408, 425, 429} then Keep
      else if status == 413 then Shrink
      else if 400 <= status < 500 then Bury
      else Keep
  }

  /** A batch is deleted exactly on a 200 that accounts for every record, the counts taken as
      plain numbers; it leaves the queue undelivered only on a permanent 4xx. */
  lemma DecideExactly(answer: Answer, batchLen: nat)
    requires batchLen < USIZE_MAX
    ensures Decide(answer, batchLen) == Delete <==>
            answer.Http? && answer.status == 200 && answer.body.Some?
            && answer.body.value.accepted + answer.body.value.duplicates + answer.body.value.rejected == batchLen
    ensures Decide(answer, batchLen) in {Bury, Shrink} <==>
            answer.Http? && 400 <= answer.status < 500 && answer.status !in {401, 403, 404, 405, 407, 408, 425, 429}
    ensures Decide(answer, batchLen) == Shrink <==> answer.Http? && answer.status == 413
  {
  }

  datatype Settled = Settled(db: Db, batchSize: nat, progress: Progress)

  function Max(a: nat, b: nat): nat { if a < b then b else a }

  function GiveUp(db: Db, batch: seq<Row>, batchSize: nat, now: int): Settled {
    Settled(DeadLetter(db, batch, now), batchSize, DeadLettered(|batch|))
  }

  /** What the answer to a posted batch does to the queue and to the batch size. */
  function Settle(db: Db, batch: seq<Row>, batchSize: nat, answer: Answer, now: int): Settled {
    match Decide(answer, |batch|)
    case Delete => Settled(Tables.DeleteBatch(db, batch), batchSize, Shipped(|batch|))
    case Keep => Settled(db, batchSize, Kept)
    case Bury => GiveUp(db, batch, batchSize, now)
    case Shrink =>
      if batchSize <= MIN_BATCH then GiveUp(db, batch, batchSize, now)
      else var smaller := Max(|batch| / 2, MIN_BATCH); Settled(db, smaller, Shrunk(smaller))
  }

  /** A 200 whose counts come to the batch. */
  predicate AccountsFor(answer: Answer, batchLen: nat) {
    && answer.Http? && answer.status == 200 && answer.body.Some?
    && answer.body.value.accepted + answer.body.value.duplicates + answer.body.value.rejected == batchLen
  }

  /** A permanent refusal: a 4xx that neither asks for the batch again nor blames the configuration,
      and of a batch too large only one that cannot get smaller. */
  predicate Refuses(answer: Answer, batchSize: nat) {
    && answer.Http? && 400 <= answer.status < 500
    && answer.status !in {401, 403, 404, 405, 407, 408, 425, 429}
    && (answer.status == 413 ==> batchSize <= 10)
  }

  /** The queue is without the rows under the ids of the batch, and otherwise in the same order. */
  ghost predicate Leaves(before: Db, batch: seq<Row>, after: Db) {
    && (forall r :: r in after.pending <==> r in before.pending && forall b :: b in batch ==> b.id != r.id)
    && (Ordered(before.pending) ==> Ordered(after.pending))
    && after.cursors == before.cursors && after.seqno == before.seqno
  }

  /** Half the batch, but no less than ten. */
  predicate Halved(smaller: nat, batchLen: nat) {
    if batchLen < 20 then smaller == 10 else 2 * smaller <= batchLen < 2 * smaller + 2
  }

  /** What an answer to a posted batch leaves, told by the answer: accepted in full the batch is gone,
      refused it is among the dead letters, too large it is posted again in halves, and else it stays. */
  ghost predicate SettledBy(
      before: Db, batch: seq<Row>, batchSize: nat, answer: Answer, now: int, after: Db, size: nat, progress: Progress)
  {
    if AccountsFor(answer, |batch|) then
      progress == Shipped(|batch|) && Leaves(before, batch, after) && after.dead == before.dead && size == batchSize
    else if Refuses(answer, batchSize) then
      progress == DeadLettered(|batch|) && Leaves(before, batch, after) && Buries(before, batch, now, after)
      && size == batchSize
    else if answer.Http? && answer.status == 413 then
      progress == Shrunk(size) && after == before && Halved(size, |batch|)
    else
      progress == Kept && after == before && size == batchSize
  }

  lemma {:induction false} LeavesWithout(db: Db, batch: seq<Row>)
    ensures Leaves(db, batch, db.(pending := Without(db.pending, Ids(batch))))
  {
    hide Ordered;
    var left := Without(db.pending, Ids(batch));
    WithoutMembers(db.pending, Ids(batch));
    if Ordered(db.pending) {
      WithoutOrdered(db.pending, Ids(batch));
    }
    forall r: Row
      ensures r.id in Ids(batch) <==> exists b :: b in batch && b.id == r.id
    {
      if r.id in Ids(batch) {
        var i :| 0 <= i < |batch| && batch[i].id == r.id;
        assert batch[i] in batch;
      }
    }
  }

  lemma {:induction false} WithoutMembers(rows: seq<Row>, ids: set<nat>)
    ensures forall r :: r in Without(rows, ids) <==> r in rows && r.id !in ids
  {
    if rows != [] {
      WithoutMembers(rows[1..], ids);
    }
  }

  lemma {:induction false} SettleExactly(db: Db, batch: seq<Row>, batchSize: nat, answer: Answer, now: int)
    requires batch != [] && |batch| < USIZE_MAX
    ensures var s := Settle(db, batch, batchSize, answer, now);
            SettledBy(db, batch, batchSize, answer, now, s.db, s.batchSize, s.progress)
  {
    hide Leaves, Buries, Without, InsertDead, Ids, Dropped, Decide;
    DecideExactly(answer, |batch|);
    LeavesWithout(db, batch);
    BuryExactly(db, batch, now);
    LeavesDeadLetter(db, batch, now);
  }

  lemma {:induction false} LeavesDeadLetter(db: Db, batch: seq<Row>, now: int)
    requires batch != []
    ensures Leaves(db, batch, DeadLetter(db, batch, now))
  {
    hide InsertDead, Without, Dropped;
    LeavesWithout(db, batch);
  }

  /** How often a batch size can still shrink. */
  function ShrinksLeft(batchSize: nat): nat {
    if batchSize <= MIN_BATCH then 0 else 1 + ShrinksLeft(Max(batchSize / 2, MIN_BATCH))
  }

  lemma {:induction false} ShrinksLeftMonotone(a: nat, b: nat)
    requires a <= b
    ensures ShrinksLeft(a) <= ShrinksLeft(b)
  {
    if a > MIN_BATCH {
      ShrinksLeftMonotone(Max(a / 2, MIN_BATCH), Max(b / 2, MIN_BATCH));
    }
  }

  /** The batch size stays within its bounds, never grows, and each shrink uses up one of the
      shrinks left. */
  lemma {:induction false} SettleShrinks(db: Db, batch: seq<Row>, batchSize: nat, answer: Answer, now: int)
    requires MIN_BATCH <= batchSize <= MAX_BATCH && |batch| <= batchSize
    ensures var s := Settle(db, batch, batchSize, answer, now);
            && MIN_BATCH <= s.batchSize <= batchSize
            && (s.progress.Shrunk? <==> s.batchSize < batchSize)
            && ShrinksLeft(s.batchSize) + (if s.progress.Shrunk? then 1 else 0) <= ShrinksLeft(batchSize)
            && (s.progress.Kept? <==> Decide(answer, |batch|) == Keep)
            && (s.progress.Shrunk? || s.progress.Kept? ==> s.db == db)
            && !s.progress.Idle?
  {
    if batchSize > MIN_BATCH {
      ShrinksLeftMonotone(Max(|batch| / 2, MIN_BATCH), Max(batchSize / 2, MIN_BATCH));
    }
  }

  /** Six shrinks take the largest batch to the floor. */
  lemma SixShrinks()
    ensures ShrinksLeft(MAX_BATCH) == 6
  {
    assert ShrinksLeft(15) == 1;
    assert ShrinksLeft(31) == 2;
    assert ShrinksLeft(62) == 3;
    assert ShrinksLeft(125) == 4;
    assert ShrinksLeft(250) == 5;
  }

  lemma {:induction false} WithoutIds(rows: seq<Row>, ids: set<nat>)
    requires forall r :: r in rows ==> r.id !in ids
    ensures Without(rows, ids) == rows
  {
    if rows != [] {
      WithoutIds(rows[1..], ids);
    }
  }

  /** Deleting the oldest rows by their ids leaves the rest as it was. */
  lemma {:induction false} WithoutPrefix(rows: seq<Row>, k: nat, ids: set<nat>)
    requires k <= |rows|
    requires forall r :: r in rows[..k] ==> r.id in ids
    requires forall r :: r in rows[k..] ==> r.id !in ids
    ensures Without(rows, ids) == rows[k..]
  {
    if k == 0 {
      assert rows[0..] == rows;
      WithoutIds(rows, ids);
    } else {
      assert rows[0] in rows[..k];
      assert rows[1..][..k - 1] == rows[..k][1..] && rows[1..][k - 1..] == rows[k..];
      WithoutPrefix(rows[1..], k - 1, ids);
    }
  }

  lemma {:induction false} WithoutBatch(rows: seq<Row>, k: nat)
    requires Ordered(rows) && k <= |rows|
    ensures Without(rows, Ids(rows[..k])) == rows[k..]
  {
    var batch := rows[..k];
    forall r | r in batch
      ensures r.id in Ids(batch)
    {
      var i :| 0 <= i < k && batch[i] == r;
      assert batch[i].id in Ids(batch);
    }
    WithoutPrefix(rows, k, Ids(batch));
  }

  /** A batch just taken and settled at once either stays or leaves from the front. */
  lemma {:induction false} SettleTaken(db: Db, limit: nat, answer: Answer, now: int)
    requires Ordered(db.pending)
    ensures var batch := Batch(db, limit);
            var s := Settle(db, batch, limit, answer, now);
            && s.db.cursors == db.cursors && s.db.seqno == db.seqno
            && s.db.pending == (if s.progress.Shipped? || s.progress.DeadLettered? then db.pending[|batch|..]
                else db.pending)
            && (!s.progress.DeadLettered? ==> s.db.dead == db.dead)
            && (s.progress.Shipped? <==> Decide(answer, |batch|) == Delete)
  {
    hide Ordered, Without, Ids, Decide, InsertDead, Dropped, Max;
    WithoutBatch(db.pending, |Batch(db, limit)|);
  }

  function Min(a: nat, b: nat): nat { if a < b then a else b }

  /** From answer `i` on, every answer accounts for the whole of the batch it is given to, until
      nothing of a queue of `n` is left. */
  predicate Accepting(answers: nat -> Answer, i: nat, n: nat, batchSize: nat)
    requires batchSize > 0
    decreases n
  {
    n == 0 || (Decide(answers(i), Min(n, batchSize)) == Delete
               && Accepting(answers, i + 1, n - Min(n, batchSize), batchSize))
  }

  /** How many posts a queue of `n` takes when nothing shrinks. */
  function Posts(n: nat, batchSize: nat): nat
    requires batchSize > 0
    decreases n
  {
    if n == 0 then 0 else 1 + Posts(n - Min(n, batchSize), batchSize)
  }

  /** As many as there are full batches, and one more for a remainder. */
  lemma {:induction false} PostsExactly(n: nat, batchSize: nat)
    requires batchSize > 0
    ensures batchSize * Posts(n, batchSize) >= n
    ensures n > 0 ==> batchSize * (Posts(n, batchSize) - 1) < n
    decreases n
  {
    if n > 0 {
      PostsExactly(n - Min(n, batchSize), batchSize);
    }
  }

  /** What an accepting service still owes, after the posts made so far. */
  ghost predicate OnTrack(answers: nat -> Answer, total: nat, batchSize: nat, posts: nat, left: nat)
    requires batchSize > 0
  {
    Accepting(answers, posts, left, batchSize) && posts + Posts(left, batchSize) == Posts(total, batchSize)
  }

  lemma {:induction false} OnTrackStep(answers: nat -> Answer, total: nat, batchSize: nat, posts: nat, left: nat)
    requires batchSize > 0 && OnTrack(answers, total, batchSize, posts, left)
    ensures left == 0 ==> posts == Posts(total, batchSize)
    ensures left > 0 ==> Decide(answers(posts), Min(left, batchSize)) == Delete
                         && OnTrack(answers, total, batchSize, posts + 1, left - Min(left, batchSize))
  {
    hide Decide;
  }

  /** What a drain of `was` has come to after some posts: rows left from the front, nothing else
      moved but dead letters and the batch size, and an accepting service is on track. */
  ghost predicate Draining(answers: nat -> Answer, was: Db, wasSize: nat, posts: nat, db: Db, batchSize: nat) {
    && MIN_BATCH <= batchSize <= wasSize <= MAX_BATCH
    && db.cursors == was.cursors && db.seqno == was.seqno
    && |db.pending| <= |was.pending| && db.pending == was.pending[|was.pending| - |db.pending|..]
    && (Accepting(answers, 0, |was.pending|, wasSize) ==>
          db.dead == was.dead && batchSize == wasSize
          && OnTrack(answers, |was.pending|, wasSize, posts, |db.pending|))
  }

  lemma {:induction false} DrainBegins(answers: nat -> Answer, db: Db, batchSize: nat)
    requires MIN_BATCH <= batchSize <= MAX_BATCH
    ensures Draining(answers, db, batchSize, 0, db, batchSize)
  {
    hide Accepting, Posts;
  }

  /** One more post carries the drain on. Unless it is kept, rows leave or the batch shrinks. */
  lemma {:induction false} DrainGoesOn(
      answers: nat -> Answer, was: Db, wasSize: nat, posts: nat, db: Db, batchSize: nat, now: int)
    requires Draining(answers, was, wasSize, posts, db, batchSize) && Ordered(db.pending) && db.pending != []
    ensures var s := Settle(db, Batch(db, batchSize), batchSize, answers(posts), now);
            && Draining(answers, was, wasSize, posts + 1, s.db, s.batchSize)
            && (if s.progress.Kept?
                then s.db == db && s.batchSize == batchSize && Decide(answers(posts), |Batch(db, batchSize)|) == Keep
                     && !Accepting(answers, 0, |was.pending|, wasSize)
                else |s.db.pending| < |db.pending| || (s.db.pending == db.pending && s.batchSize < batchSize))
            && !s.progress.Idle?
  {
    hide Ordered, Settle, Decide, OnTrack, Accepting, ShrinksLeft;
    SettleTaken(db, batchSize, answers(posts), now);
    SettleShrinks(db, Batch(db, batchSize), batchSize, answers(posts), now);
    if Accepting(answers, 0, |was.pending|, wasSize) {
      OnTrackStep(answers, |was.pending|, wasSize, posts, |db.pending|);
    }
    SettledKinds(db, Batch(db, batchSize), batchSize, answers(posts), now);
  }

  lemma {:induction false} SettledKinds(db: Db, batch: seq<Row>, batchSize: nat, answer: Answer, now: int)
    ensures var p := Settle(db, batch, batchSize, answer, now).progress;
            p.Shipped? || p.Kept? || p.DeadLettered? || p.Shrunk?
  {
    hide Decide;
  }

  lemma {:induction false} DrainEnds(answers: nat -> Answer, was: Db, wasSize: nat, posts: nat, db: Db, batchSize: nat)
    requires Draining(answers, was, wasSize, posts, db, batchSize)
    ensures db.pending == [] && Accepting(answers, 0, |was.pending|, wasSize) ==> posts == Posts(|was.pending|, wasSize)
  {
    hide Accepting;
  }

  lemma DrainMeans(answers: nat -> Answer, was: Db, wasSize: nat, posts: nat, db: Db, batchSize: nat)
    requires Draining(answers, was, wasSize, posts, db, batchSize)
    ensures batchSize <= wasSize && db.cursors == was.cursors && db.seqno == was.seqno
    ensures |db.pending| <= |was.pending| && db.pending == was.pending[|was.pending| - |db.pending|..]
    ensures Accepting(answers, 0, |was.pending|, wasSize) ==> db.dead == was.dead && batchSize == wasSize
  {
    hide Accepting, OnTrack;
  }

  lemma SettleByDecision(db: Db, batch: seq<Row>, batchSize: nat, answer: Answer, now: int)
    ensures Settle(db, batch, batchSize, answer, now) ==
            match Decide(answer, |batch|)
            case Delete => Settled(Tables.DeleteBatch(db, batch), batchSize, Shipped(|batch|))
            case Keep => Settled(db, batchSize, Kept)
            case Bury => GiveUp(db, batch, batchSize, now)
            case Shrink =>
              if batchSize <= MIN_BATCH then GiveUp(db, batch, batchSize, now)
              else var smaller := Max(|batch| / 2, MIN_BATCH); Settled(db, smaller, Shrunk(smaller))
  {
  }

  class Shipper {
    const buffer: Buffer
    var batchSize: nat

    ghost predicate Valid()
      reads this, buffer
    {
      buffer.Valid() && MIN_BATCH <= batchSize <= MAX_BATCH
    }

    constructor (buffer: Buffer)
      requires buffer.Valid()
      ensures Valid() && this.buffer == buffer && batchSize == 500
    {
      this.buffer, batchSize := buffer, MAX_BATCH;
    }

    /** Takes a batch, posts it and settles it by the answer. */
    method ShipOnce(answer: Answer, now: int) returns (progress: Progress)
      requires Valid()
      modifies this, buffer
      ensures Valid()
      ensures var batch := Batch(old(buffer.Contents()), old(batchSize));
              Settled(buffer.Contents(), batchSize, progress) ==
              if batch == [] then Settled(old(buffer.Contents()), old(batchSize), Idle)
              else Settle(old(buffer.Contents()), batch, old(batchSize), answer, now)
      ensures old(buffer.pending) != [] ==>
                var batch := old(buffer.pending)[..Min(old(batchSize), |old(buffer.pending)|)];
                SettledBy(old(buffer.Contents()), batch, old(batchSize), answer, now, buffer.Contents(), batchSize,
                    progress)
    {
      var batch := buffer.TakeBatch(batchSize);
      if batch == [] {
        return Idle;
      }
      hide Settle, SettledBy, Decide, Ordered;
      SettleShrinks(buffer.Contents(), batch, batchSize, answer, now);
      SettleExactly(buffer.Contents(), batch, batchSize, answer, now);
      SettleByDecision(buffer.Contents(), batch, batchSize, answer, now);
      match Decide(answer, |batch|)
      case Delete =>
        buffer.DeleteBatch(batch);
        return Shipped(|batch|);
      case Keep =>
        return Kept;
      case Bury =>
        buffer.DeadLetter(batch, now);
        return DeadLettered(|batch|);
      case Shrink =>
        progress := ShrinkBatch(batch, now);
    }

    /** Halves the batch for the retry; at the floor the batch is given up. */
    method ShrinkBatch(batch: seq<Row>, now: int) returns (progress: Progress)
      requires Valid()
      modifies this, buffer
      ensures buffer.Valid()
      ensures Settled(buffer.Contents(), batchSize, progress) ==
              if old(batchSize) <= MIN_BATCH then GiveUp(old(buffer.Contents()), batch, old(batchSize), now)
              else var smaller := Max(|batch| / 2, MIN_BATCH); Settled(old(buffer.Contents()), smaller, Shrunk(smaller))
    {
      if batchSize <= MIN_BATCH {
        buffer.DeadLetter(batch, now);
        return DeadLettered(|batch|);
      }
      batchSize := Max(|batch| / 2, MIN_BATCH);
      return Shrunk(batchSize);
    }

    /** Ships until the queue is empty or a batch is kept. With nothing enqueued meanwhile this
        ends whatever the service answers, and records leave in order from the front. A service that
        accepts every batch gets the whole queue, none of it buried, in the fewest posts. */
    method Drain(answers: nat -> Answer, now: int) returns (posts: nat, progress: Progress)
      requires Valid()
      modifies this, buffer
      ensures Valid()
      ensures progress.Idle? || progress.Kept?
      ensures progress.Idle? ==> buffer.pending == []
      ensures progress.Kept? ==> posts > 0 && buffer.pending != []
                                 && Decide(answers(posts - 1), |Batch(buffer.Contents(), batchSize)|) == Keep
      ensures buffer.cursors == old(buffer.cursors) && buffer.seqno == old(buffer.seqno)
      ensures |buffer.pending| <= |old(buffer.pending)|
              && buffer.pending == old(buffer.pending)[|old(buffer.pending)| - |buffer.pending|..]
      ensures batchSize <= old(batchSize)
      ensures Accepting(answers, 0, |old(buffer.pending)|, old(batchSize)) ==>
                buffer.pending == [] && buffer.dead == old(buffer.dead) && batchSize == old(batchSize)
                && posts == Posts(|old(buffer.pending)|, old(batchSize))
    {
      hide Settle, Decide, Ordered, Accepting, Posts, Draining;
      posts := 0;
      ghost var was, wasSize := buffer.Contents(), batchSize;
      DrainBegins(answers, was, wasSize);
      while true
        invariant Valid() && Draining(answers, was, wasSize, posts, buffer.Contents(), batchSize)
        decreases |buffer.pending|, batchSize
      {
        ghost var db, size := buffer.Contents(), batchSize;
        if db.pending != [] {
          DrainGoesOn(answers, was, wasSize, posts, db, size, now);
        }
        progress := ShipOnce(answers(posts), now);
        if progress.Idle? {
          DrainEnds(answers, was, wasSize, posts, db, size);
          DrainMeans(answers, was, wasSize, posts, db, size);
          return;
        }
        posts := posts + 1;
        if progress.Kept? {
          DrainMeans(answers, was, wasSize, posts, db, size);
          return;
        }
      }
    }
  }
}
