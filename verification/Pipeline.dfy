/** Many transcripts, the queue, the shipper and restarts interleaved: what a provider that
    moves its cursor only with its records (src/providers/claude_code.rs `ship_file` and
    `cursor_for`, src/runtime/mod.rs `store`) leaves in the buffer. */
module Pipeline {
  import opened Options
  import opened Records
  import opened Lines
  import opened Reading
  import opened Scanning
  import opened Transcript
  import opened Following
  import opened Tables
  import opened Shipping
  import opened Delivery
  import opened Effects
  import CursorKeys

  /** A transcript by its path and, for an import, the device it belongs to. */
  datatype FileId = FileId(path: string, device: Option<string>) {
    predicate Valid() { CursorKeys.Tracked(path, device) }
    function Key(): string { CursorKeys.TranscriptKey(path, device) }
    function CursorKey(): Records.CursorKey { Records.CursorKey(ClaudeCode, Key()) }
  }

  /** What does not change over a run: the buffer's configuration, how each file is read, the
      inode of each local file, and the log every copy of a file is a prefix of. */
  datatype Setting = Setting(cfg: Config, sources: FileId -> Source, inodes: FileId -> nat, logs: FileId -> seq<Byte>)

  /** The queue and shipper, the provider's memory of cursors, and for each file the times its
      bytes were read under. */
  datatype State = State(world: World, known: map<string, Option<FileCursor>>, stamps: FileId -> Stamp)

  /** How an emission ends: committed and acknowledged, refused by the buffer, or the process
      killed before or after the commit. */
  datatype Fate = Committed | Refused | KilledBefore | KilledAfter

  datatype Event =
    | Poll(id: FileId, file: File, budget: Budget, now: int, fate: Fate)
    | Other(step: Delivery.Step)

  function Stored(w: World, key: CursorKey): Option<FileCursor> {
    if key in w.db.cursors && w.db.cursors[key].TranscriptAt? then Some(w.db.cursors[key].at) else None
  }

  /** The cursor a poll starts from: remembered, else read from the buffer. */
  function CursorFor(st: State, id: FileId): Option<FileCursor> {
    if id.Key() in st.known then st.known[id.Key()] else Stored(st.world, id.CursorKey())
  }

  function Emit(id: FileId, inc: Increment, now: int): Delivery.Step {
    Submit(inc.drafts, Some(Cursor(id.CursorKey(), TranscriptAt(inc.cursor))), id.device, now, true)
  }

  /** An increment of a file committed: its drafts and its cursor in one transaction. */
  function Commit(
      s: Setting, st: State, id: FileId, file: File, cursor: Option<FileCursor>, inc: Increment, now: int): State {
    var offset := if cursor.Some? then cursor.value.mark.offset else 0;
    st.(world := Apply(s.cfg, st.world, Emit(id, inc, now)),
        stamps := (other: FileId) => StampOf(st.stamps(other), other == id, offset, file.modified))
  }

  function StampOf(stamp: Stamp, read: bool, offset: nat, modified: int): Stamp {
    if read then Restamp(stamp, offset, modified) else stamp
  }

  /** The process gone and back: the tables stay, memory does not. */
  function Killed(s: Setting, st: State): State {
    st.(world := Apply(s.cfg, st.world, Restart), known := map[])
  }

  function ApplyPoll(s: Setting, st: State, e: Event): State
    requires e.Poll?
  {
    var cursor := CursorFor(st, e.id);
    var known := st.known[e.id.Key() := cursor];
    match IncrementOf(s.sources(e.id), e.file, cursor, e.budget)
    case None => st.(known := known)
    case Some(inc) =>
      match e.fate
      case Committed => Commit(s, st, e.id, e.file, cursor, inc, e.now).(known := known[e.id.Key() := Some(inc.cursor)])
      case Refused => st.(known := known)
      case KilledBefore => Killed(s, st)
      case KilledAfter => Killed(s, Commit(s, st, e.id, e.file, cursor, inc, e.now))
  }

  function ApplyEvent(s: Setting, st: State, e: Event): State {
    match e
    case Poll(_, _, _, _, _) => ApplyPoll(s, st, e)
    case Other(step) => State(Apply(s.cfg, st.world, step), if step.Restart? then map[] else st.known, st.stamps)
  }

  /** Polls find prefixes of the logs; anyone else's cursor is under another provider's key or is
      a pull schedule. */
  ghost predicate Admissible(s: Setting, st: State, e: Event) {
    match e
    case Poll(id, file, _, _, _) => id.Valid()
        && Found(s.sources(id), s.logs(id), s.inodes(id), file, CursorFor(st, id))
    case Other(step) =>
      step.Submit? && step.cursor.Some? && step.cursor.value.key.provider == ClaudeCode ==>
      exists device :: step.cursor.value.key.key == CursorKeys.PullKey(device)
  }

  // ---- The drafts of a file, as sealed ----

  /** The drafts sealed beside the cursor of a key, in the order of their numbers. */
  function SealedFor(sealed: seq<Sealed>, key: CursorKey): seq<RecordDraft> {
    if sealed == [] then []
    else (if sealed[0].from == Some(key) then [sealed[0].envelope.draft] else []) + SealedFor(sealed[1..], key)
  }

  function Redacted(cfg: Config, drafts: seq<RecordDraft>): seq<RecordDraft> {
    seq(|drafts|, i requires 0 <= i < |drafts| => drafts[i].(payload := cfg.redact(drafts[i].payload)))
  }

  lemma {:induction false} SealedForAppend(a: seq<Sealed>, b: seq<Sealed>, key: CursorKey)
    ensures SealedFor(a + b, key) == SealedFor(a, key) + SealedFor(b, key)
  {
    if a == [] {
      assert a + b == b;
    } else {
      assert (a + b)[1..] == a[1..] + b;
      SealedForAppend(a[1..], b, key);
    }
  }

  lemma {:induction false} SealedForNone(sealed: seq<Sealed>, key: CursorKey)
    requires forall i :: 0 <= i < |sealed| ==> sealed[i].from != Some(key)
    ensures SealedFor(sealed, key) == []
  {
    if sealed != [] {
      SealedForNone(sealed[1..], key);
    }
  }

  lemma {:induction false} SealedForAll(sealed: seq<Sealed>, key: CursorKey, drafts: seq<RecordDraft>)
    requires |sealed| == |drafts|
    requires forall i :: 0 <= i < |sealed| ==> sealed[i].from == Some(key) && sealed[i].envelope.draft == drafts[i]
    ensures SealedFor(sealed, key) == drafts
  {
    if sealed != [] {
      SealedForAll(sealed[1..], key, drafts[1..]);
      assert drafts == [drafts[0]] + drafts[1..];
    }
  }

  /** An enqueue seals its drafts, redacted, beside its own cursor and nothing beside another. */
  lemma {:induction false} SubmitSealsFor(cfg: Config, w: World, step: Delivery.Step, key: CursorKey)
    requires step.Submit? && step.commits
    ensures SealedFor(Apply(cfg, w, step).ledger.sealed, key)
         == SealedFor(w.ledger.sealed, key)
            + (if step.cursor.Some? && step.cursor.value.key == key then Redacted(cfg, step.drafts) else [])
  {
    hide Dropped, InsertAll, Enqueue, Seal;
    var e := Enqueue(cfg, w.db, step.drafts, step.cursor, step.device, step.now);
    var n := |step.drafts|;
    var tagged := Tagged(e.sealed, n, step.cursor);
    SealedNumbers(cfg, w.db, step);
    SealedForAppend(w.ledger.sealed, tagged, key);
    SealedForAppend(tagged[..n], tagged[n..], key);
    assert tagged == tagged[..n] + tagged[n..];
    SealedForNone(tagged[n..], key);
    if step.cursor.Some? && step.cursor.value.key == key {
      SealedForAll(tagged[..n], key, Redacted(cfg, step.drafts));
    } else {
      SealedForNone(tagged[..n], key);
    }
    assert Redacted(cfg, step.drafts) + [] == Redacted(cfg, step.drafts);
  }

  lemma {:induction false} RedactedAppend(cfg: Config, a: seq<RecordDraft>, b: seq<RecordDraft>)
    ensures Redacted(cfg, a + b) == Redacted(cfg, a) + Redacted(cfg, b)
  {
  }

  // ---- The invariant of every run ----

  /** The drafts sealed for a file are exactly those of the log before its stored cursor. */
  ghost predicate Follows(s: Setting, st: State, id: FileId) {
    var cursor := Stored(st.world, id.CursorKey());
    var m := if cursor.Some? then cursor.value.mark else START;
    && m.offset <= |s.logs(id)|
    && var read := Read(RulesOf(s.sources(id)), s.logs(id)[..m.offset], st.stamps(id), START);
       && read.mark == m
       && SealedFor(st.world.ledger.sealed, id.CursorKey()) == Redacted(s.cfg, read.drafts)
       && (cursor.Some? ==> SameFile(s.sources(id), s.logs(id), s.inodes(id), cursor.value))
  }

  /** What the provider remembers of a file, if anything, is what is stored. */
  ghost predicate Remembers(st: State, id: FileId) {
    id.Key() in st.known ==> st.known[id.Key()] == Stored(st.world, id.CursorKey())
  }

  ghost predicate Inv(s: Setting, st: State) {
    forall id: FileId :: id.Valid() ==> Follows(s, st, id) && Remembers(st, id)
  }

  /** Following is about the stored cursor, the sealed drafts and the read times alone. */
  lemma {:induction false} FollowsStays(s: Setting, st: State, st': State, id: FileId)
    requires Follows(s, st, id)
    requires Stored(st'.world, id.CursorKey()) == Stored(st.world, id.CursorKey())
    requires SealedFor(st'.world.ledger.sealed, id.CursorKey()) == SealedFor(st.world.ledger.sealed, id.CursorKey())
    requires st'.stamps(id) == st.stamps(id)
    ensures Follows(s, st', id)
  {
    hide Read, RulesOf;
  }

  /** Only a committed enqueue changes cursors or what is sealed. */
  lemma {:induction false} ShipperKeeps(cfg: Config, w: World, step: Delivery.Step)
    requires step.Submit? ==> !step.commits
    ensures var w' := Apply(cfg, w, step);
            w'.db.cursors == w.db.cursors && w'.ledger.sealed == w.ledger.sealed
  {
    hide Without, Decide, InsertDead, Dropped;
  }

  lemma {:induction false} SubmitStores(cfg: Config, w: World, step: Delivery.Step, key: CursorKey)
    requires step.Submit? && step.commits
    ensures var w' := Apply(cfg, w, step);
            Stored(w', key) ==
            if step.cursor.Some? && step.cursor.value.key == key
            then (if step.cursor.value.value.TranscriptAt? then Some(step.cursor.value.value.at) else None)
            else Stored(w, key)
  {
    hide Dropped, InsertAll, Seal;
  }

  /** A step by anyone but a transcript reader leaves every file followed. */
  lemma {:induction false} OtherKeeps(s: Setting, st: State, e: Event, id: FileId)
    requires e.Other? && Admissible(s, st, e) && id.Valid() && Follows(s, st, id) && Remembers(st, id)
    ensures Follows(s, ApplyEvent(s, st, e), id) && Remembers(ApplyEvent(s, st, e), id)
  {
    hide Follows, Apply, SealedFor;
    var st' := ApplyEvent(s, st, e);
    if e.step.Submit? && e.step.commits {
      if e.step.cursor.Some? && e.step.cursor.value.key.provider == ClaudeCode {
        var device :| e.step.cursor.value.key.key == CursorKeys.PullKey(device);
        CursorKeys.CursorKeysDiffer(id.path, id.device, id.path, id.device, device);
      }
      SubmitSealsFor(s.cfg, st.world, e.step, id.CursorKey());
      SubmitStores(s.cfg, st.world, e.step, id.CursorKey());
      var sealed := SealedFor(st.world.ledger.sealed, id.CursorKey());
      assert sealed + [] == sealed;
    } else {
      ShipperKeeps(s.cfg, st.world, e.step);
    }
    FollowsStays(s, st, st', id);
  }

  /** Committing an increment carries its own file on. */
  lemma {:induction false} CommitFollows(s: Setting, st: State, id: FileId, file: File, b: Budget, now: int)
    requires Follows(s, st, id)
    requires var cursor := Stored(st.world, id.CursorKey());
             && Found(s.sources(id), s.logs(id), s.inodes(id), file, cursor)
             && IncrementOf(s.sources(id), file, cursor, b).Some?
    ensures var cursor := Stored(st.world, id.CursorKey());
            var inc := IncrementOf(s.sources(id), file, cursor, b).value;
            Follows(s, Commit(s, st, id, file, cursor, inc, now), id)
  {
    hide Read, RulesOf, IncrementOf, Found, SealedFor, Apply, SameFile;
    var src, log, key := s.sources(id), s.logs(id), id.CursorKey();
    var cursor := Stored(st.world, key);
    var m := if cursor.Some? then cursor.value.mark else START;
    var inc := IncrementOf(src, file, cursor, b).value;
    var drafts := Read(RulesOf(src), log[..m.offset], st.stamps(id), START).drafts;
    PollFollows(src, log, s.inodes(id), st.stamps(id), drafts, cursor, file, b);
    SubmitSealsFor(s.cfg, st.world, Emit(id, inc, now), key);
    SubmitStores(s.cfg, st.world, Emit(id, inc, now), key);
    RedactedAppend(s.cfg, drafts, inc.drafts);
  }

  /** And leaves every other file as it was. */
  lemma {:induction false} CommitSpares(
      s: Setting, st: State, id: FileId, file: File, cursor: Option<FileCursor>, inc: Increment, now: int,
      other: FileId)
    requires id.Valid() && other.Valid() && other != id && Follows(s, st, other)
    ensures Follows(s, Commit(s, st, id, file, cursor, inc, now), other)
    ensures Stored(Commit(s, st, id, file, cursor, inc, now).world, other.CursorKey())
        == Stored(st.world, other.CursorKey())
    ensures other.Key() != id.Key()
  {
    hide Follows, Apply, SealedFor;
    CursorKeys.CursorKeysDiffer(id.path, id.device, other.path, other.device, "");
    SubmitSealsFor(s.cfg, st.world, Emit(id, inc, now), other.CursorKey());
    SubmitStores(s.cfg, st.world, Emit(id, inc, now), other.CursorKey());
    var sealed := SealedFor(st.world.ledger.sealed, other.CursorKey());
    assert sealed + [] == sealed;
    FollowsStays(s, st, Commit(s, st, id, file, cursor, inc, now), other);
  }

  lemma {:induction false} KilledKeeps(s: Setting, st: State, id: FileId)
    requires Follows(s, st, id)
    ensures Follows(s, Killed(s, st), id)
  {
    hide Follows, SealedFor;
    FollowsStays(s, st, Killed(s, st), id);
  }

  lemma {:induction false} KnownStays(s: Setting, st: State, known: map<string, Option<FileCursor>>, id: FileId)
    requires Follows(s, st, id)
    ensures Follows(s, st.(known := known), id)
  {
    hide Follows, SealedFor;
    FollowsStays(s, st, st.(known := known), id);
  }

  /** A poll keeps its own file followed and remembered as stored, whatever its fate. */
  lemma {:induction false} PollKeepsOwn(s: Setting, st: State, e: Event)
    requires e.Poll? && Admissible(s, st, e) && Follows(s, st, e.id) && Remembers(st, e.id)
    ensures Follows(s, ApplyEvent(s, st, e), e.id) && Remembers(ApplyEvent(s, st, e), e.id)
  {
    hide Follows, IncrementOf, Apply, SealedFor, Found;
    var cursor := CursorFor(st, e.id);
    assert cursor == Stored(st.world, e.id.CursorKey());
    var r := IncrementOf(s.sources(e.id), e.file, cursor, e.budget);
    var known := st.known[e.id.Key() := cursor];
    KnownStays(s, st, known, e.id);
    KilledKeeps(s, st, e.id);
    if r.Some? {
      var committed := Commit(s, st, e.id, e.file, cursor, r.value, e.now);
      CommitFollows(s, st, e.id, e.file, e.budget, e.now);
      SubmitStores(s.cfg, st.world, Emit(e.id, r.value, e.now), e.id.CursorKey());
      KnownStays(s, committed, known[e.id.Key() := Some(r.value.cursor)], e.id);
      KilledKeeps(s, committed, e.id);
    }
  }

  /** And every other file as it was. */
  lemma {:induction false} PollKeepsOthers(s: Setting, st: State, e: Event, id: FileId)
    requires e.Poll? && Admissible(s, st, e) && id.Valid() && id != e.id && Follows(s, st, id) && Remembers(st, id)
    ensures Follows(s, ApplyEvent(s, st, e), id) && Remembers(ApplyEvent(s, st, e), id)
  {
    hide Follows, IncrementOf, Apply, SealedFor, Found;
    var cursor := CursorFor(st, e.id);
    var r := IncrementOf(s.sources(e.id), e.file, cursor, e.budget);
    var known := st.known[e.id.Key() := cursor];
    CursorKeys.CursorKeysDiffer(e.id.path, e.id.device, id.path, id.device, "");
    KnownStays(s, st, known, id);
    KilledKeeps(s, st, id);
    if r.Some? {
      var committed := Commit(s, st, e.id, e.file, cursor, r.value, e.now);
      CommitSpares(s, st, e.id, e.file, cursor, r.value, e.now, id);
      KnownStays(s, committed, known[e.id.Key() := Some(r.value.cursor)], id);
      KilledKeeps(s, committed, id);
    }
  }

  /** One event keeps every file followed, and memory equal to what is stored. */
  lemma {:induction false} EventKeeps(s: Setting, st: State, e: Event)
    requires Inv(s, st) && Admissible(s, st, e)
    ensures Inv(s, ApplyEvent(s, st, e))
  {
    hide Follows, ApplyEvent, Admissible, Remembers;
    forall id: FileId | id.Valid()
      ensures Follows(s, ApplyEvent(s, st, e), id) && Remembers(ApplyEvent(s, st, e), id)
    {
      match e
      case Poll(_, _, _, _, _) =>
        if id == e.id {
          PollKeepsOwn(s, st, e);
        } else {
          PollKeepsOthers(s, st, e, id);
        }
      case Other(_) =>
        OtherKeeps(s, st, e, id);
    }
  }

  function Play(s: Setting, st: State, events: seq<Event>): State
    decreases |events|
  {
    if events == [] then st else Play(s, ApplyEvent(s, st, events[0]), events[1..])
  }

  ghost predicate AllAdmissible(s: Setting, st: State, events: seq<Event>)
    decreases |events|
  {
    events == [] || (Admissible(s, st, events[0]) && AllAdmissible(s, ApplyEvent(s, st, events[0]), events[1..]))
  }

  const NO_STAMP: Stamp := (_: nat) => 0
  const BLANK := State(FRESH, map[], (_: FileId) => NO_STAMP)

  lemma {:induction false} BlankFollows(s: Setting)
    ensures Inv(s, BLANK)
  {
    forall id: FileId | id.Valid()
      ensures Follows(s, BLANK, id)
    {
      ParsedAtStart(RulesOf(s.sources(id)), s.logs(id), BLANK.stamps(id));
    }
  }

  /** Under every interleaving of polls, commits, refusals, kills, other providers and shipping,
      each transcript's sealed drafts, in sequence order, are those of its log before the stored
      cursor, and the provider never remembers a cursor other than the stored one. */
  lemma {:induction false} PlayKeeps(s: Setting, st: State, events: seq<Event>)
    requires Inv(s, st) && AllAdmissible(s, st, events)
    ensures Inv(s, Play(s, st, events))
    decreases |events|
  {
    hide Inv, Admissible, ApplyEvent;
    if events != [] {
      EventKeeps(s, st, events[0]);
      PlayKeeps(s, ApplyEvent(s, st, events[0]), events[1..]);
    }
  }

  // ---- Whose the records are ----

  /** A record sealed beside the cursor of a transcript is the import's device's, else the daemon's. */
  ghost predicate Attributed(s: Setting, sealed: seq<Sealed>) {
    forall x, id: FileId :: x in sealed && id.Valid() && x.from == Some(id.CursorKey()) ==>
      x.envelope.device == (match id.device case Some(d) => d case None => s.cfg.device)
  }

  /** The cursor of a step is no transcript's, or that of one of its device. */
  ghost predicate OfDevice(step: Delivery.Step) {
    step.Submit? && step.cursor.Some? ==>
      forall id: FileId :: id.Valid() && step.cursor.value.key == id.CursorKey() ==> step.device == id.device
  }

  lemma {:induction false} StepAttributes(s: Setting, w: World, step: Delivery.Step)
    requires Attributed(s, w.ledger.sealed) && OfDevice(step)
    ensures Attributed(s, Apply(s.cfg, w, step).ledger.sealed)
  {
    hide FileId.CursorKey, FileId.Valid, Enqueue, Apply, SealedAs;
    if step.Submit? && step.commits {
      var e := Enqueue(s.cfg, w.db, step.drafts, step.cursor, step.device, step.now);
      EnqueueDevices(s.cfg, w.db, step);
      SubmitTags(s.cfg, w, step);
      var tagged := Tagged(e.sealed, |step.drafts|, step.cursor);
      forall x, id: FileId | x in w.ledger.sealed + tagged && id.Valid() && x.from == Some(id.CursorKey())
        ensures x.envelope.device == (match id.device case Some(d) => d case None => s.cfg.device)
      {
        if x !in w.ledger.sealed {
          var i :| 0 <= i < |tagged| && tagged[i] == x;
        }
      }
    } else {
      ShipperKeeps(s.cfg, w, step);
    }
  }

  lemma {:induction false} SubmitTags(cfg: Config, w: World, step: Delivery.Step)
    requires step.Submit? && step.commits
    ensures Apply(cfg, w, step).ledger.sealed == w.ledger.sealed
              + Tagged(Enqueue(cfg, w.db, step.drafts, step.cursor, step.device, step.now).sealed, |step.drafts|,
                  step.cursor)
  {
    hide Enqueue;
  }

  lemma {:induction false} EnqueueDevices(cfg: Config, db: Db, step: Delivery.Step)
    requires step.Submit?
    ensures var e := Enqueue(cfg, db, step.drafts, step.cursor, step.device, step.now);
            |e.sealed| >= |step.drafts| && forall i :: 0 <= i < |step.drafts| ==>
              e.sealed[i].device == (match step.device case Some(d) => d case None => cfg.device)
  {
    hide Enqueue, StoredFrom, MarksDropped, StoredAs, Before;
    EnqueueExactly(cfg, db, step.drafts, step.cursor, step.device, step.now);
    var e := Enqueue(cfg, db, step.drafts, step.cursor, step.device, step.now);
    assert forall i :: 0 <= i < |step.drafts| ==>
      SealedAs(cfg, step.device, step.drafts[i], db.seqno + 1 + i, e.sealed[i]);
  }

  lemma {:induction false} EventAttributes(s: Setting, st: State, e: Event)
    requires Attributed(s, st.world.ledger.sealed) && Admissible(s, st, e)
    ensures Attributed(s, ApplyEvent(s, st, e).world.ledger.sealed)
  {
    hide Attributed, IncrementOf, Apply, Found;
    match e
    case Other(step) =>
      OtherOfDevice(s, st, e);
      StepAttributes(s, st.world, step);
    case Poll(id, file, budget, now, fate) =>
      var r := IncrementOf(s.sources(id), file, CursorFor(st, id), budget);
      StepAttributes(s, st.world, Restart);
      if r.Some? {
        var emit := Emit(id, r.value, now);
        EmitOfDevice(id, r.value, now);
        StepAttributes(s, st.world, emit);
        StepAttributes(s, Apply(s.cfg, st.world, emit), Restart);
      }
  }

  lemma {:induction false} EmitOfDevice(id: FileId, inc: Increment, now: int)
    requires id.Valid()
    ensures OfDevice(Emit(id, inc, now))
  {
    forall other: FileId | other.Valid() && id.CursorKey() == other.CursorKey()
      ensures id.device == other.device
    {
      CursorKeys.CursorKeysDiffer(id.path, id.device, other.path, other.device, "");
    }
  }

  lemma {:induction false} OtherOfDevice(s: Setting, st: State, e: Event)
    requires e.Other? && Admissible(s, st, e)
    ensures OfDevice(e.step)
  {
    hide CursorKeys.TranscriptKey, CursorKeys.PullKey, CursorKeys.Tracked;
    if e.step.Submit? && e.step.cursor.Some? && e.step.cursor.value.key.provider == ClaudeCode {
      var device :| e.step.cursor.value.key.key == CursorKeys.PullKey(device);
      forall id: FileId | id.Valid()
        ensures e.step.cursor.value.key != id.CursorKey()
      {
        CursorKeys.CursorKeysDiffer(id.path, id.device, id.path, id.device, device);
      }
    }
  }

  /** Over any run every record of a transcript goes out under the transcript's own device. */
  lemma {:induction false} PlayAttributes(s: Setting, st: State, events: seq<Event>)
    requires Attributed(s, st.world.ledger.sealed) && AllAdmissible(s, st, events)
    ensures Attributed(s, Play(s, st, events).world.ledger.sealed)
    decreases |events|
  {
    hide Attributed, Admissible, ApplyEvent;
    if events != [] {
      EventAttributes(s, st, events[0]);
      PlayAttributes(s, ApplyEvent(s, st, events[0]), events[1..]);
    }
  }

  /** A poll with positive budgets found the whole log of a file and had nothing to pass. */
  predicate PolledWhole(s: Setting, st: State, id: FileId, file: File, b: Budget) {
    && id.Valid() && AllPositive(b)
    && file.content == s.logs(id) && Found(s.sources(id), s.logs(id), s.inodes(id), file, CursorFor(st, id))
    && (s.sources(id).identity.Head? ==> HeadDigest(s.sources(id).hash, file.content).Some?)
    && IncrementOf(s.sources(id), file, CursorFor(st, id), b).None?
  }

  /** A file polled whole, with nothing more to find, has every complete line of it sealed once. */
  lemma {:induction false} CaughtUp(s: Setting, st: State, id: FileId, file: File, b: Budget)
    requires Inv(s, st) && PolledWhole(s, st, id, file, b)
    ensures SealedFor(st.world.ledger.sealed, id.CursorKey())
         == Redacted(s.cfg, Told(RulesOf(s.sources(id)), s.logs(id), st.stamps(id), 0, None).drafts)
  {
    hide Read, RulesOf, IncrementOf, Found, SealedFor, SameFile, Told, HeadDigest;
    assert Follows(s, st, id);
    var cursor := Stored(st.world, id.CursorKey());
    var m := if cursor.Some? then cursor.value.mark else START;
    var drafts := Read(RulesOf(s.sources(id)), s.logs(id)[..m.offset], st.stamps(id), START).drafts;
    PollCatchesUp(s.sources(id), s.logs(id), s.inodes(id), st.stamps(id), drafts, cursor, file, b);
  }

  // ---- From a line of a transcript to its fate ----

  /** The steps of the queue an event comes to: an emission if it is committed, a restart if the
      process is killed. */
  function StepsOf(s: Setting, st: State, e: Event): seq<Delivery.Step> {
    match e
    case Other(step) => [step]
    case Poll(id, file, budget, now, fate) =>
      match IncrementOf(s.sources(id), file, CursorFor(st, id), budget)
      case None => []
      case Some(inc) =>
        match fate
        case Committed => [Emit(id, inc, now)]
        case Refused => []
        case KilledBefore => [Restart]
        case KilledAfter => [Emit(id, inc, now), Restart]
  }

  function AllSteps(s: Setting, st: State, events: seq<Event>): seq<Delivery.Step>
    decreases |events|
  {
    if events == [] then [] else StepsOf(s, st, events[0]) + AllSteps(s, ApplyEvent(s, st, events[0]), events[1..])
  }

  lemma {:induction false} EventRuns(s: Setting, st: State, e: Event)
    ensures ApplyEvent(s, st, e).world == Run(s.cfg, st.world, StepsOf(s, st, e))
  {
    hide IncrementOf, Apply;
    match e
    case Other(step) =>
      RunOne(s.cfg, st.world, step);
    case Poll(id, file, budget, now, fate) =>
      RunOne(s.cfg, st.world, Restart);
      var r := IncrementOf(s.sources(id), file, CursorFor(st, id), budget);
      if r.Some? {
        var emit := Emit(id, r.value, now);
        RunOne(s.cfg, st.world, emit);
        RunOne(s.cfg, Apply(s.cfg, st.world, emit), Restart);
        assert [emit, Restart] == [emit] + [Restart];
        RunOn(s.cfg, st.world, [emit], [Restart]);
      }
  }

  lemma RunOne(cfg: Config, w: World, step: Delivery.Step)
    ensures Run(cfg, w, [step]) == Apply(cfg, w, step)
  {
    hide Apply;
    assert [step][1..] == [];
    assert Run(cfg, Apply(cfg, w, step), []) == Apply(cfg, w, step);
  }

  /** What any interleaving leaves in the queue is what its steps do. */
  lemma {:induction false} PlayRuns(s: Setting, st: State, events: seq<Event>)
    ensures Play(s, st, events).world == Run(s.cfg, st.world, AllSteps(s, st, events))
    decreases |events|
  {
    hide ApplyEvent, StepsOf;
    if events != [] {
      EventRuns(s, st, events[0]);
      var next := ApplyEvent(s, st, events[0]);
      PlayRuns(s, next, events[1..]);
      RunOn(s.cfg, st.world, StepsOf(s, st, events[0]), AllSteps(s, next, events[1..]));
    }
  }

  /** Under every interleaving the tally holds, and the records that are nowhere are those that the
      settled batches of the run overwrote. */
  lemma {:induction false} PlayConserves(s: Setting, st: State, events: seq<Event>)
    requires Delivery.Inv(st.world)
    ensures var end := Play(s, st, events).world;
            Delivery.Inv(end) && Missing(end) == Missing(st.world) + Losses(s.cfg, st.world, AllSteps(s, st, events))
  {
    hide Delivery.Inv, Missing, Losses, AllSteps;
    PlayRuns(s, st, events);
    RunKeeps(s.cfg, st.world, AllSteps(s, st, events));
  }

  /** Where a record can have gone. */
  function Whereabouts(w: World): set<nat> {
    Seqs(w.db.pending) + w.ledger.delivered + w.ledger.buried + w.ledger.evicted
  }

  lemma {:induction false} SealedForIsSealed(sealed: seq<Sealed>, key: CursorKey, i: nat) returns (j: nat)
    requires i < |SealedFor(sealed, key)|
    ensures j < |sealed| && sealed[j].from == Some(key) && sealed[j].envelope.draft == SealedFor(sealed, key)[i]
  {
    if sealed[0].from == Some(key) {
      if i == 0 {
        return 0;
      }
      j := SealedForIsSealed(sealed[1..], key, i - 1);
    } else {
      j := SealedForIsSealed(sealed[1..], key, i);
    }
    j := j + 1;
  }

  lemma PolledValid(s: Setting, st: State, id: FileId, file: File, b: Budget)
    requires PolledWhole(s, st, id, file, b)
    ensures id.Valid()
  {
  }

  /** The state a run from nothing comes to. */
  ghost predicate Reaches(s: Setting, events: seq<Event>, st: State) {
    AllAdmissible(s, BLANK, events) && st == Play(s, BLANK, events)
  }

  /** Every reachable state follows all transcripts, keeps the tally, and misses exactly what its
      run overwrote. */
  lemma {:induction false} ReachableKeeps(s: Setting, events: seq<Event>, st: State)
    requires Reaches(s, events, st)
    ensures Inv(s, st) && Delivery.Inv(st.world)
    ensures Missing(st.world) == Losses(s.cfg, FRESH, AllSteps(s, BLANK, events))
  {
    hide Inv, Delivery.Inv, AllAdmissible, Play, Missing, Losses, AllSteps;
    BlankFollows(s);
    PlayKeeps(s, BLANK, events);
    FreshKeeps();
    PlayConserves(s, BLANK, events);
  }

  lemma {:induction false} ReachableAttributed(s: Setting, events: seq<Event>, st: State)
    requires Reaches(s, events, st)
    ensures Attributed(s, st.world.ledger.sealed)
  {
    hide Play, AllAdmissible;
    PlayAttributes(s, BLANK, events);
  }

  /** End to end, after any run from nothing: a transcript polled whole, with nothing more to find,
      has a sealed record for every draft of its complete lines, and each of those records is
      queued, delivered, buried, or counted by an eviction, unless a settled batch of the run
      overwrote it. */
  lemma {:induction false} EveryLineAccounted(
      s: Setting, events: seq<Event>, st: State, id: FileId, file: File, b: Budget, i: nat) returns (seqno: nat)
    requires Reaches(s, events, st) && PolledWhole(s, st, id, file, b)
    requires i < |Told(RulesOf(s.sources(id)), s.logs(id), st.stamps(id), 0, None).drafts|
    ensures 1 <= seqno <= |st.world.ledger.sealed|
    ensures seqno in Whereabouts(st.world) <==> seqno !in Losses(s.cfg, FRESH, AllSteps(s, BLANK, events))
    ensures var draft := Told(RulesOf(s.sources(id)), s.logs(id), st.stamps(id), 0, None).drafts[i];
            var sealed := st.world.ledger.sealed[seqno - 1];
            && sealed.from == Some(id.CursorKey()) && sealed.envelope.seqno == seqno
            && sealed.envelope.device == (match id.device case Some(d) => d case None => s.cfg.device)
            && sealed.envelope.draft == draft.(payload := s.cfg.redact(draft.payload))
  {
    hide Reaches, PolledWhole, Inv, Told, RulesOf, SealedFor, Seqs, Genuine, Ordered, SeqOrdered, SameNumbered, Losses,
         AllSteps;
    ReachableKeeps(s, events, st);
    CaughtUp(s, st, id, file, b);
    ReachableAttributed(s, events, st);
    PolledValid(s, st, id, file, b);
    var j := SealedForIsSealed(st.world.ledger.sealed, id.CursorKey(), i);
    assert st.world.ledger.sealed[j] in st.world.ledger.sealed;
    seqno := j + 1;
    assert seqno in Numbers(1, st.world.db.seqno);
  }
}
