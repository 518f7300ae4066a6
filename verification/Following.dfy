/** One transcript over many increments: the file found at each poll is some prefix of the log it
    is a copy of, read under whatever modification time and budget. */
module Following {
  import opened Options
  import opened Records
  import opened Lines
  import opened Reading
  import opened Scanning
  import opened Transcript

  /** The mark and the drafts are those of reading the log's bytes before the mark, each line
      under the time it was found with. */
  ghost predicate Parsed(rules: Rules, log: seq<Byte>, stamp: Stamp, drafts: seq<RecordDraft>, m: Mark) {
    m.offset <= |log| && Read(rules, log[..m.offset], stamp, START) == Outcome(drafts, m)
  }

  /** The bytes from `offset` on are read under `modified`. */
  function Restamp(stamp: Stamp, offset: nat, modified: int): Stamp {
    (i: nat) => if i < offset then stamp(i) else modified
  }

  lemma {:induction false} ParsedAtStart(rules: Rules, log: seq<Byte>, stamp: Stamp)
    ensures Parsed(rules, log, stamp, [], START)
  {
    ReadAtEnd(rules, log[..0], stamp, START);
  }

  /** An increment over any prefix that reaches the mark carries the parse on. */
  lemma {:induction false} ScanFollows(
      rules: Rules, log: seq<Byte>, stamp: Stamp, drafts: seq<RecordDraft>, m: Mark, k: nat, modified: int, b: Budget)
    requires Parsed(rules, log, stamp, drafts, m) && m.offset <= k <= |log|
    ensures var scan := Scan(rules, log[..k], Constant(modified), b, m.offset, m, 0, 0);
            Parsed(rules, log, Restamp(stamp, m.offset, modified), drafts + scan.drafts, scan.mark)
  {
    hide Read, Scan, Next;
    var scan := Scan(rules, log[..k], Constant(modified), b, m.offset, m, 0, 0);
    var later := Restamp(stamp, m.offset, modified);
    var before, upTo := log[..m.offset], log[..scan.mark.offset];
    ReadAgrees(rules, before, stamp, later, START);
    assert log[..k][..scan.mark.offset] == upTo && upTo[..m.offset] == before;
    ScanIsReadOfPassed(rules, log[..k], Constant(modified), b, m.offset, m, 0, 0);
    ReadAgrees(rules, upTo, Constant(modified), later, m);
    ReadExtends(rules, upTo, later, m.offset, START);
  }

  /** Once no step is left, the parse is that of the whole log. */
  lemma {:induction false} ParsedWhole(rules: Rules, log: seq<Byte>, stamp: Stamp, drafts: seq<RecordDraft>, m: Mark)
    requires Parsed(rules, log, stamp, drafts, m) && Next(rules, log, stamp, m).Stop?
    ensures Outcome(drafts, m) == Read(rules, log, stamp, START) == Told(rules, log, stamp, 0, None)
  {
    hide Read, Next;
    ReadExtends(rules, log, stamp, m.offset, START);
    Unfold(rules, log, stamp, m);
    assert drafts + [] == drafts;
    ReadIsParse(rules, log, stamp, 0, None);
  }

  /** The head of a file is its first line if that ends within 65 536 bytes, else as many bytes if it
      has them; without either there is no digest yet. */
  lemma {:induction false} HeadDigestExactly(hash: seq<Byte> -> string, content: seq<Byte>)
    ensures var n := NewlineAt(content, 0);
            HeadDigest(hash, content) ==
            if n < |content| && n < 65_536 then Some(hash(content[..n + 1]))
            else if |content| >= 65_536 then Some(hash(content[..65_536]))
            else None
  {
    hide NewlineAt, Taken, Complete;
    TakenExactly(content, 0, HEAD_HASH_BYTES);
    TakenPrefix(content, HEAD_HASH_BYTES);
  }

  lemma {:induction false} TakenPrefix(content: seq<Byte>, cap: nat)
    ensures var line := Taken(content, 0, cap);
            |line| <= |content| && line == content[..|line|]
  {
    hide NewlineAt;
  }

  /** A complete line of an import counts up to 32 MiB, its newline included, and one of a local file
      whatever its length. */
  lemma {:induction false} LineCountsExactly(
      src: Source, content: seq<Byte>, stamp: Stamp, from: nat, last: Option<int>)
    requires from <= |content| && NewlineAt(content, from) < |content| < 0x1_0000_0000_0000_0000
    ensures var n := NewlineAt(content, from);
            var line := content[from..n + 1];
            Told(RulesOf(src), content, stamp, from, last) ==
            if src.identity.Head? && |line| > 33_554_432 then Told(RulesOf(src), content, stamp, n + 1, last)
            else
              var outcome := OutcomeOf(src, line, last, stamp(from));
              Prepend(Since(src.since, outcome.drafts),
                      Told(RulesOf(src), content, stamp, n + 1,
                           if outcome.messageTs.Some? then outcome.messageTs else last))
  {
    hide NewlineAt, Told, OutcomeOf, Since;
    ToldStep(RulesOf(src), content, stamp, from, last);
  }

  /** The head digest of a prefix is absent or the log's own. */
  lemma {:induction false} HeadOfPrefix(hash: seq<Byte> -> string, log: seq<Byte>, k: nat)
    requires k <= |log| && HeadDigest(hash, log[..k]).Some?
    ensures HeadDigest(hash, log[..k]) == HeadDigest(hash, log)
  {
    NewlineInPrefix(log, k, 0);
    var short, whole := Taken(log[..k], 0, HEAD_HASH_BYTES), Taken(log, 0, HEAD_HASH_BYTES);
    if Complete(short) {
      assert short[|short| - 1] == log[|short| - 1] == NEWLINE;
    }
    assert |short| == |whole|;
    assert short == whole;
  }

  /** How a file is told to be the same one: by its inode, or by the digest of its head. */
  ghost predicate SameFile(src: Source, log: seq<Byte>, inode: nat, c: FileCursor) {
    if src.identity.Inode? then c.inode == inode else c.head.Some? && c.head == HeadDigest(src.hash, log)
  }

  /** What a poll may find: a prefix of the log, and for a local file the same inode, never
      truncated below the stored offset. */
  predicate Found(src: Source, log: seq<Byte>, inode: nat, file: File, cursor: Option<FileCursor>) {
    && file.content <= log
    && (src.identity.Inode? ==> file.inode == inode && (cursor.Some? ==> cursor.value.mark.offset <= |file.content|))
  }

  /** A poll that finds something goes on from the cursor; a copy shorter than the offset, or
      without a complete head, is waited for. */
  lemma {:induction false} StartsFromCursor(
      src: Source, log: seq<Byte>, inode: nat, file: File, cursor: Option<FileCursor>)
    requires Found(src, log, inode, file, cursor)
    requires cursor.Some? ==> SameFile(src, log, inode, cursor.value)
    ensures var start := StartOf(src, file, cursor);
            && (start.Some? ==> start.value.mark == (if cursor.Some? then cursor.value.mark else START)
                                && SameFile(src, log, inode, start.value))
            && (start.None? <==>
                (src.identity.Head?
                 && (HeadDigest(src.hash, file.content).None?
                     || (cursor.Some? && |file.content| < cursor.value.mark.offset))))
  {
    assert log[..|file.content|] == file.content;
    if src.identity.Head? && HeadDigest(src.hash, file.content).Some? {
      HeadOfPrefix(src.hash, log, |file.content|);
    }
  }

  /** One poll of a followed file: nothing, or drafts and a cursor strictly further on that
      together are still the parse of the log up to the cursor. */
  lemma {:induction false} PollFollows(
      src: Source, log: seq<Byte>, inode: nat, stamp: Stamp, drafts: seq<RecordDraft>, cursor: Option<FileCursor>,
      file: File, b: Budget)
    requires Found(src, log, inode, file, cursor)
    requires cursor.Some? ==> SameFile(src, log, inode, cursor.value)
    requires Parsed(RulesOf(src), log, stamp, drafts, if cursor.Some? then cursor.value.mark else START)
    ensures var r := IncrementOf(src, file, cursor, b);
            var offset := if cursor.Some? then cursor.value.mark.offset else 0;
            r.Some? ==>
              && SameFile(src, log, inode, r.value.cursor)
              && offset < r.value.cursor.mark.offset <= |file.content|
              && Parsed(RulesOf(src), log, Restamp(stamp, offset, file.modified), drafts + r.value.drafts,
                  r.value.cursor.mark)
  {
    hide Scan, RulesOf, Parsed, HeadDigest, Constant, Restamp, StartOf;
    StartsFromCursor(src, log, inode, file, cursor);
    var start := StartOf(src, file, cursor);
    if start.Some? {
      assert log[..|file.content|] == file.content;
      ScanFollows(RulesOf(src), log, stamp, drafts, start.value.mark, |file.content|, file.modified, b);
    }
  }

  /** A poll of the whole log with positive budgets that finds nothing has nothing left to find:
      what was drafted is the parse of every complete line of the log. */
  lemma {:induction false} PollCatchesUp(
      src: Source, log: seq<Byte>, inode: nat, stamp: Stamp, drafts: seq<RecordDraft>, cursor: Option<FileCursor>,
      file: File, b: Budget)
    requires Found(src, log, inode, file, cursor) && file.content == log && AllPositive(b)
    requires cursor.Some? ==> SameFile(src, log, inode, cursor.value)
    requires src.identity.Head? ==> HeadDigest(src.hash, log).Some?
    requires Parsed(RulesOf(src), log, stamp, drafts, if cursor.Some? then cursor.value.mark else START)
    requires IncrementOf(src, file, cursor, b).None?
    ensures drafts == Told(RulesOf(src), log, stamp, 0, None).drafts
  {
    hide Scan, RulesOf, HeadDigest, Constant, Next, Read, Told, StartOf;
    StartsFromCursor(src, log, inode, file, cursor);
    var m := if cursor.Some? then cursor.value.mark else START;
    var rules := RulesOf(src);
    ScanStops(rules, log, Constant(file.modified), b, m);
    StopsAlike(rules, log, Constant(file.modified), stamp, m);
    ParsedWhole(rules, log, stamp, drafts, m);
  }

  lemma {:induction false} StopsAlike(rules: Rules, log: seq<Byte>, f: Stamp, g: Stamp, m: Mark)
    requires m.offset <= |log| && Next(rules, log, f, m).Stop?
    ensures Next(rules, log, g, m).Stop?
  {
  }

  // ---- Reading again ----

  /** A draft whose time is the one its line was read under falls on the same side of `since`. */
  predicate FilteredAlike(since: Option<int>, f: int, g: int) {
    since.Some? ==> (f < since.value <==> g < since.value)
  }

  /** A file read again, whenever that is, drafts the same keys in the same order, as long as the
      times it is read under lie on the same side of `since`: a restart repeats records the service
      already knows by their keys. */
  lemma {:induction false} RereadKeepsKeys(src: Source, content: seq<Byte>, f: Stamp, g: Stamp, m: Mark)
    requires m.offset <= |content|
    requires forall i :: m.offset <= i < |content| ==> FilteredAlike(src.since, f(i), g(i))
    ensures var a, b := Read(RulesOf(src), content, f, m), Read(RulesOf(src), content, g, m);
            SameKeys(a.drafts, b.drafts) && a.mark == b.mark
    decreases |content| - m.offset
  {
    hide Read, Next, RulesOf;
    var rules := RulesOf(src);
    Unfold(rules, content, f, m);
    Unfold(rules, content, g, m);
    StepKeepsKeys(src, content, f, g, m);
    match Next(rules, content, f, m)
    case Stop =>
    case Advance(next, _) => RereadKeepsKeys(src, content, f, g, next);
  }

  lemma {:induction false} StepKeepsKeys(src: Source, content: seq<Byte>, f: Stamp, g: Stamp, m: Mark)
    requires m.offset <= |content|
    requires m.offset < |content| ==> FilteredAlike(src.since, f(m.offset), g(m.offset))
    ensures var a, b := Next(RulesOf(src), content, f, m), Next(RulesOf(src), content, g, m);
            (a.Stop? <==> b.Stop?) && (a.Advance? ==> a.next == b.next && SameKeys(a.drafts, b.drafts))
  {
    hide OutcomeOf, NewlineAt, LineCap, Since;
    var n := NewlineAt(content, m.offset);
    if n < |content| {
      var bytes := content[m.offset..n + 1];
      LineKeysStable(src, bytes, m.lastMessageTs, f(m.offset), m.lastMessageTs, g(m.offset));
      SinceKeepsKeys(src.since, OutcomeOf(src, bytes, m.lastMessageTs, f(m.offset)).drafts,
                     OutcomeOf(src, bytes, m.lastMessageTs, g(m.offset)).drafts);
    }
  }

  /** The source read with nothing filtered. */
  function Unfiltered(src: Source): Source { src.(since := None) }

  /** Filtering drops drafts and does nothing else: what is read past and what is carried is as if
      nothing were filtered. */
  lemma {:induction false} SinceOnlyDrops(src: Source, content: seq<Byte>, stamp: Stamp, m: Mark)
    requires m.offset <= |content|
    ensures var all := Read(RulesOf(Unfiltered(src)), content, stamp, m);
            Read(RulesOf(src), content, stamp, m) == Outcome(Since(src.since, all.drafts), all.mark)
    decreases |content| - m.offset
  {
    hide Read, Next, RulesOf, Since;
    Unfold(RulesOf(src), content, stamp, m);
    Unfold(RulesOf(Unfiltered(src)), content, stamp, m);
    StepOnlyDrops(src, content, stamp, m);
    match Next(RulesOf(Unfiltered(src)), content, stamp, m)
    case Stop =>
      NothingFiltered(src.since);
    case Advance(next, drafts) =>
      SinceOnlyDrops(src, content, stamp, next);
      SinceAppend(src.since, drafts, Read(RulesOf(Unfiltered(src)), content, stamp, next).drafts);
  }

  lemma NothingFiltered(since: Option<int>)
    ensures Since(since, []) == []
  {
  }

  lemma {:induction false} StepOnlyDrops(src: Source, content: seq<Byte>, stamp: Stamp, m: Mark)
    requires m.offset <= |content|
    ensures match Next(RulesOf(Unfiltered(src)), content, stamp, m)
            case Stop => Next(RulesOf(src), content, stamp, m) == Stop
            case Advance(next, drafts) =>
              Next(RulesOf(src), content, stamp, m) == Advance(next, Since(src.since, drafts))
  {
    hide OutcomeOf, NewlineAt, LineCap, Since;
    NothingFiltered(src.since);
    var n := NewlineAt(content, m.offset);
    if n < |content| {
      var bytes := content[m.offset..n + 1];
      SameOutcome(src, bytes, m.lastMessageTs, stamp(m.offset));
      SinceNothing(OutcomeOf(src, bytes, m.lastMessageTs, stamp(m.offset)).drafts);
    }
  }

  lemma {:induction false} SameOutcome(src: Source, bytes: seq<Byte>, last: Option<int>, modified: int)
    ensures OutcomeOf(src, bytes, last, modified) == OutcomeOf(Unfiltered(src), bytes, last, modified)
  {
    hide MessageDrafts, TouchDrafts, SessionDrafts;
    if src.parse(bytes).Some? {
      var line := src.parse(bytes).value;
      SameMessages(src, line, true);
      SameMessages(src, line, false);
      SameTouches(src, line);
      SameSessions(src, line, "custom_title", line.customTitle, last, modified);
      SameSessions(src, line, "ai_title", line.aiTitle, last, modified);
      SameSessions(src, line, "pr", line.prUrl, last, modified);
    }
  }

  lemma SameMessages(src: Source, line: Line, user: bool)
    ensures MessageDrafts(src, line, user) == MessageDrafts(Unfiltered(src), line, user)
  {
  }

  lemma SameTouches(src: Source, line: Line)
    ensures TouchDrafts(src, line) == TouchDrafts(Unfiltered(src), line)
  {
    hide Touched;
    SameTouched(src, line.toolPaths, []);
  }

  lemma SameSessions(
      src: Source, line: Line, field: string, text: Option<string>, last: Option<int>, modified: int)
    ensures SessionDrafts(src, line, field, text, last, modified)
        == SessionDrafts(Unfiltered(src), line, field, text, last, modified)
  {
  }

  lemma {:induction false} SameTouched(src: Source, paths: seq<(string, string)>, seen: seq<(string, string)>)
    requires forall i, j :: 0 <= i < j < |seen| ==> seen[i] != seen[j]
    ensures Touched(src, paths, seen) == Touched(Unfiltered(src), paths, seen)
  {
    if paths != [] {
      var repo := src.repoOf(paths[0].0);
      if repo.None? || (repo.value, paths[0].1) in seen {
        SameTouched(src, paths[1..], seen);
      } else {
        SameTouched(src, paths[1..], seen + [(repo.value, paths[0].1)]);
      }
    }
  }

  /** The carried time of a read is that of the last message of it, filtered or not. */
  lemma {:induction false} ReadCarriesLastMessage(src: Source, content: seq<Byte>, stamp: Stamp, m: Mark)
    requires m.offset <= |content|
    ensures Read(RulesOf(src), content, stamp, m).mark.lastMessageTs
         == LastMessage(Read(RulesOf(Unfiltered(src)), content, stamp, m).drafts, m.lastMessageTs)
  {
    hide Read, RulesOf, LastMessage;
    SinceOnlyDrops(src, content, stamp, m);
    UnfilteredCarries(Unfiltered(src), content, stamp, m);
  }

  lemma {:induction false} UnfilteredCarries(src: Source, content: seq<Byte>, stamp: Stamp, m: Mark)
    requires src.since.None? && m.offset <= |content|
    ensures var read := Read(RulesOf(src), content, stamp, m);
            read.mark.lastMessageTs == LastMessage(read.drafts, m.lastMessageTs)
    decreases |content| - m.offset
  {
    hide Read, Next, RulesOf, LastMessage;
    var rules := RulesOf(src);
    Unfold(rules, content, stamp, m);
    NoMessages([], m.lastMessageTs);
    match Next(rules, content, stamp, m)
    case Stop =>
    case Advance(next, drafts) =>
      StepCarriesLastMessage(src, content, stamp, m);
      UnfilteredCarries(src, content, stamp, next);
      LastMessageAppend(drafts, Read(rules, content, stamp, next).drafts, m.lastMessageTs);
  }

  lemma {:induction false} StepCarriesLastMessage(src: Source, content: seq<Byte>, stamp: Stamp, m: Mark)
    requires src.since.None? && m.offset <= |content|
    ensures var step := Next(RulesOf(src), content, stamp, m);
            step.Advance? ==> step.next.lastMessageTs == LastMessage(step.drafts, m.lastMessageTs)
  {
    hide OutcomeOf, NewlineAt, LineCap, LastMessage;
    NoMessages([], m.lastMessageTs);
    var n := NewlineAt(content, m.offset);
    if n < |content| {
      var bytes := content[m.offset..n + 1];
      CarryIsLastMessage(src, bytes, m.lastMessageTs, stamp(m.offset));
      SinceNothing(OutcomeOf(src, bytes, m.lastMessageTs, stamp(m.offset)).drafts);
    }
  }

  // ---- What the carried time is for ----

  /** A title of a read, from a complete line of the log: without a time of its own it has that of the
      last message drafted before it, else the time carried into the read, else that its line was read
      under. */
  lemma {:induction false} TitlesTakeTheCarriedTime(src: Source, content: seq<Byte>, stamp: Stamp, m: Mark, i: nat)
      returns (from: nat)
    requires src.since.None? && m.offset <= |content| && i < |Read(RulesOf(src), content, stamp, m).drafts|
    requires Read(RulesOf(src), content, stamp, m).drafts[i].kind == Session
    ensures m.offset <= from && IsLine(RulesOf(src), content, from)
    ensures from < |content| && NewlineAt(content, from) < |content|
    ensures var drafts, parsed := Read(RulesOf(src), content, stamp, m).drafts, src.parse(LineAt(content, from));
            parsed.Some?
            && TitleOf(src, parsed.value, drafts[i], LastMessage(drafts[..i], m.lastMessageTs), stamp(from))
    decreases |content| - m.offset
  {
    hide Read, Next, RulesOf, LastMessage, OutcomeOf, IsLine, LineAt, TitleOf;
    Unfold(RulesOf(src), content, stamp, m);
    var Advance(next, drafts) := Next(RulesOf(src), content, stamp, m);
    var all, rest := Read(RulesOf(src), content, stamp, m).drafts, Read(RulesOf(src), content, stamp, next).drafts;
    if i < |drafts| {
      StepDraftsLine(src, content, stamp, m);
      TitleAlone(src, LineAt(content, m.offset), m.lastMessageTs, stamp(m.offset), i);
      assert all[..0] == [];
      NoMessages([], m.lastMessageTs);
      return m.offset;
    }
    from := TitlesTakeTheCarriedTime(src, content, stamp, next, i - |drafts|);
    StepCarriesLastMessage(src, content, stamp, m);
    LastMessageAppend(drafts, rest[..i - |drafts|], m.lastMessageTs);
    assert all[..i] == drafts + rest[..i - |drafts|];
  }

  function LineAt(content: seq<Byte>, from: nat): seq<Byte>
    requires from < |content| && NewlineAt(content, from) < |content|
  {
    content[from..NewlineAt(content, from) + 1]
  }

  /** A step that drafts takes the line it stands at. */
  lemma {:induction false} StepDraftsLine(src: Source, content: seq<Byte>, stamp: Stamp, m: Mark)
    requires src.since.None? && m.offset <= |content|
    requires Next(RulesOf(src), content, stamp, m).Advance? && Next(RulesOf(src), content, stamp, m).drafts != []
    ensures IsLine(RulesOf(src), content, m.offset)
    ensures m.offset < |content| && NewlineAt(content, m.offset) < |content|
    ensures Next(RulesOf(src), content, stamp, m).drafts
         == OutcomeOf(src, LineAt(content, m.offset), m.lastMessageTs, stamp(m.offset)).drafts
  {
    hide OutcomeOf, NewlineAt, LineCap, Since;
    SinceNothing(OutcomeOf(src, LineAt(content, m.offset), m.lastMessageTs, stamp(m.offset)).drafts);
  }
}
