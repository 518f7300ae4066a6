/** What became of the batches of a run, told by the answers alone: those a 200 accounts for are
    delivered, those refused for good are the dead letters (src/runtime/ship.rs, `ship_once`;
    src/runtime/buffer.rs, `dead_letter`). */
module Graves {
  import opened Records
  import opened Tables
  import opened Effects
  import opened Shipping
  import opened Delivery

  /** The batch a step settles by a refusal. */
  function RefusedBatch(w: World, s: Step): seq<Row> {
    if s.Respond? && w.batch != [] && Refuses(s.answer, w.batchSize) then w.batch else []
  }

  /** The batch a step settles by an acceptance. */
  function AcceptedBatch(w: World, s: Step): seq<Row> {
    if s.Respond? && w.batch != [] && AccountsFor(s.answer, |w.batch|) then w.batch else []
  }

  function AllRefused(cfg: Config, w: World, steps: seq<Step>): seq<Letter>
    decreases |steps|
  {
    if steps == [] then []
        else LettersOf(RefusedBatch(w, steps[0])) + AllRefused(cfg, Apply(cfg, w, steps[0]), steps[1..])
  }

  function AllAccepted(cfg: Config, w: World, steps: seq<Step>): seq<Letter>
    decreases |steps|
  {
    if steps == [] then []
        else LettersOf(AcceptedBatch(w, steps[0])) + AllAccepted(cfg, Apply(cfg, w, steps[0]), steps[1..])
  }

  function NumbersOf(letters: seq<Letter>): set<nat> {
    set l | l in letters :: l.envelope.seqno
  }

  lemma {:induction false} NumbersOfRows(rows: seq<Row>)
    ensures NumbersOf(LettersOf(rows)) == Seqs(rows)
  {
    var letters := LettersOf(rows);
    forall q | q in Seqs(rows)
      ensures q in NumbersOf(letters)
    {
      var i :| 0 <= i < |rows| && rows[i].envelope.seqno == q;
      assert letters[i] in letters;
    }
  }

  lemma {:induction false} NumbersOfAppend(a: seq<Letter>, b: seq<Letter>)
    ensures NumbersOf(a + b) == NumbersOf(a) + NumbersOf(b)
  {
  }

  lemma {:induction false} FittingAll(letters: seq<Letter>)
    requires LettersFit(letters)
    ensures NewestFitting(letters, letters) && letters + [] == letters
  {
    hide LettersFit;
    assert letters[0..] == letters;
  }

  /** One step buries what it refuses and delivers what it accepts. */
  lemma {:induction false} StepBuries(cfg: Config, w: World, s: Step)
    requires Inv(w) && LettersFit(LettersOf(w.db.dead))
    ensures var w' := Apply(cfg, w, s);
            && NewestFitting(LettersOf(w.db.dead) + LettersOf(RefusedBatch(w, s)), LettersOf(w'.db.dead))
            && w'.ledger.buried == w.ledger.buried + Seqs(RefusedBatch(w, s))
            && w'.ledger.delivered == w.ledger.delivered + Seqs(AcceptedBatch(w, s))
  {
    hide Settle, Enqueue, NewestFitting, LettersFit, LettersOf, Accounted, Leaves;
    FittingAll(LettersOf(w.db.dead));
    NoLetters();
    match s
    case Submit(drafts, cursor, device, now, _) =>
      EnqueueSparesDead(cfg, w.db, s);
    case Take =>
    case Restart =>
    case Respond(answer, at) =>
      if w.batch != [] {
        SettleExactly(w.db, w.batch, w.batchSize, answer, at);
      }
  }

  lemma NoLetters()
    ensures LettersOf([]) == [] && Seqs([]) == {}
  {
  }

  lemma {:induction false} EnqueueSparesDead(cfg: Config, db: Db, s: Step)
    requires s.Submit?
    ensures Enqueue(cfg, db, s.drafts, s.cursor, s.device, s.now).db.dead == db.dead
  {
    hide Dropped, InsertAll, Seal;
  }

  /** Over any run the dead letters are the newest, as many as fit their caps, of all there were and
      all that was refused, in order; what counts as buried is just that, and what counts as delivered
      is what was accepted. */
  lemma {:induction false} RunBuries(cfg: Config, w: World, steps: seq<Step>)
    requires Inv(w) && LettersFit(LettersOf(w.db.dead))
    ensures var end, refused := Run(cfg, w, steps), AllRefused(cfg, w, steps);
            && NewestFitting(LettersOf(w.db.dead) + refused, LettersOf(end.db.dead))
            && end.ledger.buried == w.ledger.buried + NumbersOf(refused)
            && end.ledger.delivered == w.ledger.delivered + NumbersOf(AllAccepted(cfg, w, steps))
    decreases |steps|
  {
    hide Inv, Apply, NewestFitting, LettersFit, LettersOf, RefusedBatch, AcceptedBatch, NumbersOf, Seqs, Missing;
    var was := LettersOf(w.db.dead);
    if steps == [] {
      FittingAll(was);
      NoNumbers();
    } else {
      var s, next := steps[0], Apply(cfg, w, steps[0]);
      StepBuries(cfg, w, s);
      StepKeeps(cfg, w, s);
      NewestFits(was + LettersOf(RefusedBatch(w, s)), LettersOf(next.db.dead));
      RunBuries(cfg, next, steps[1..]);
      var rest := AllRefused(cfg, next, steps[1..]);
      NewestOfNewest(was + LettersOf(RefusedBatch(w, s)), LettersOf(next.db.dead), rest,
                     LettersOf(Run(cfg, w, steps).db.dead));
      assert was + (LettersOf(RefusedBatch(w, s)) + rest) == was + LettersOf(RefusedBatch(w, s)) + rest;
      NumbersOfRows(RefusedBatch(w, s));
      NumbersOfRows(AcceptedBatch(w, s));
      NumbersOfAppend(LettersOf(RefusedBatch(w, s)), rest);
      NumbersOfAppend(LettersOf(AcceptedBatch(w, s)), AllAccepted(cfg, next, steps[1..]));
    }
  }

  lemma NoNumbers()
    ensures NumbersOf([]) == {}
  {
  }

  lemma NewestFits(all: seq<Letter>, kept: seq<Letter>)
    requires NewestFitting(all, kept)
    ensures LettersFit(kept)
  {
  }
}
