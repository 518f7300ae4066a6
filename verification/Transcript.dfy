/** Reading one increment of a transcript file (src/providers/claude_code.rs, `read_increment`). */
module Transcript {
  import opened Options
  import opened Records
  import opened Lines
  import opened Reading
  import opened Scanning

  const MAX_LINE_BYTES := 32 * 1024 * 1024
  const HEAD_HASH_BYTES := 64 * 1024
  const U64_MAX := 0xFFFF_FFFF_FFFF_FFFF
  const READ_BUDGET := Budget(500, 4 * 1024 * 1024, 32 * 1024 * 1024)

  /** A file as it is found: its inode, its modification time and its bytes. */
  datatype File = File(inode: nat, modified: int, content: seq<Byte>)

  datatype Increment = Increment(drafts: seq<RecordDraft>, cursor: FileCursor)

  function LineCap(identity: Identity): Positive {
    if identity.Head? then MAX_LINE_BYTES else U64_MAX
  }

  function LineEffect(src: Source, bytes: seq<Byte>, last: Option<int>, modified: int): Effect {
    var outcome := OutcomeOf(src, bytes, last, modified);
    Effect(Since(src.since, outcome.drafts), outcome.messageTs.Or(last))
  }

  /** How the lines of a source are read. */
  function RulesOf(src: Source): Rules {
    Rules(LineCap(src.identity), (bytes, last, modified) => LineEffect(src, bytes, last, modified))
  }

  /** Every line read under one modification time. */
  function Constant(modified: int): Stamp {
    (_: nat) => modified
  }

  /** The digest of the first line, or of its first 64 KiB; nothing while neither is complete. */
  function HeadDigest(hash: seq<Byte> -> string, content: seq<Byte>): Option<string> {
    var head := Taken(content, 0, HEAD_HASH_BYTES);
    if !Complete(head) && |head| < HEAD_HASH_BYTES then None else Some(hash(head))
  }

  /** Where reading begins, or nothing while the file must be waited for. */
  function StartOf(src: Source, file: File, cursor: Option<FileCursor>): (start: Option<FileCursor>)
    ensures start.Some? ==> start.value.mark.offset <= |file.content|
  {
    if src.identity.Inode? then
      match cursor
      case Some(c) => if c.inode == file.inode && c.mark.offset <= |file.content| then cursor
          else Some(FileCursor(file.inode, START, None))
      case None => Some(FileCursor(file.inode, START, None))
    else
      match HeadDigest(src.hash, file.content)
      case None => None
      case Some(head) =>
        if cursor.Some? && cursor.value.head == Some(head) then
          if cursor.value.mark.offset > |file.content| then None else Some(cursor.value.(inode := file.inode))
        else Some(FileCursor(file.inode, START, Some(head)))
  }

  /** The increment from a cursor, or nothing when there is nothing to pass. */
  function IncrementOf(src: Source, file: File, cursor: Option<FileCursor>, b: Budget): (r: Option<Increment>) {
    match StartOf(src, file, cursor)
    case None => None
    case Some(start) =>
      var scan := Scan(RulesOf(src), file.content, Constant(file.modified), b, start.mark.offset, start.mark, 0, 0);
      if scan.mark.offset == start.mark.offset then None
      else Some(Increment(scan.drafts, start.(mark := scan.mark)))
  }

  /** The newline sought from `from` is the chunk's, or lies past the chunk. */
  lemma {:induction false} NewlineInChunk(content: seq<Byte>, from: nat, at: nat, window: nat)
    requires from <= |content| && from <= at <= NewlineAt(content, from) && at + window <= |content|
    ensures var position := NewlineAt(content[at..at + window], 0);
            if position < window then NewlineAt(content, from) == at + position
            else NewlineAt(content, from) >= at + window
  {
    hide NewlineAt;
    var chunk, n, position :=
        content[at..at + window], NewlineAt(content, from), NewlineAt(content[at..at + window], 0);
    assert forall i :: at <= i < at + position ==> content[i] == chunk[i - at] != NEWLINE;
    if position < window {
      assert content[at + position] == chunk[position];
    }
  }

  /** A buffered reader over a file's bytes. `chunk` decides how many bytes the buffer happens to
      hold at each position, as a real reader may return anything from one byte up. */
  class Reader {
    const content: seq<Byte>
    const chunk: nat -> nat
    var pos: nat

    ghost predicate Valid()
      reads this
    {
      pos <= |content|
    }

    constructor (content: seq<Byte>, from: nat, chunk: nat -> nat)
      requires from <= |content|
      ensures Valid() && this.content == content && pos == from
    {
      this.content, this.chunk, this.pos := content, chunk, from;
    }

    method FillBuf() returns (buf: seq<Byte>)
      requires Valid()
      ensures pos + |buf| <= |content| && buf == content[pos..pos + |buf|]
      ensures buf == [] <==> pos == |content|
    {
      var held := if chunk(pos) == 0 then 1 else chunk(pos);
      buf := content[pos..Min(pos + held, |content|)];
    }

    method Consume(n: nat)
      requires pos + n <= |content|
      modifies this
      ensures pos == old(pos) + n
    {
      pos := pos + n;
    }

    /** Skipping does not depend on how the bytes are chunked. */
    method SkipThroughNewline(limit: nat) returns (skipped: Skipped)
      requires Valid()
      modifies this
      ensures Valid()
      ensures skipped == Skip(content, old(pos), limit)
      ensures pos == old(pos) + skipped.bytes
    {
      hide NewlineAt;
      var bytes := 0;
      while bytes < limit
        invariant Valid() && pos == old(pos) + bytes && bytes <= limit
        invariant pos <= NewlineAt(content, old(pos))
        decreases limit - bytes
      {
        var buf := FillBuf();
        if buf == [] {
          break;
        }
        var window := Min(|buf|, limit - bytes);
        var position := NewlineAt(buf[..window], 0);
        assert buf[..window] == content[pos..pos + window];
        NewlineInChunk(content, old(pos), pos, window);
        if position < window {
          Consume(position + 1);
          return Skipped.Skipped(bytes + position + 1, true);
        }
        Consume(window);
        bytes := bytes + window;
      }
      skipped := Skipped.Skipped(bytes, false);
    }

    /** The bytes up to and with the next newline, at most `cap`, whatever the chunks. */
    method ReadUntil(cap: nat) returns (line: seq<Byte>)
      requires Valid()
      modifies this
      ensures Valid()
      ensures line == Taken(content, old(pos), cap)
      ensures pos == old(pos) + |line|
    {
      var skipped := SkipThroughNewline(cap);
      line := content[pos - skipped.bytes..pos];
    }
  }

  /** Keeps the drafts not before `since`, adding up the text they carry. */
  method Keep(since: Option<int>, found: seq<RecordDraft>) returns (kept: seq<RecordDraft>, text: nat)
    ensures kept == Since(since, found) && text == TextBytes(kept)
  {
    hide Since, TextBytes;
    kept, text := [], 0;
    LoneTextBytes();
    SinceSplits(since, []);
    assert found[0..] == found && [] + Since(since, found) == Since(since, found);
    for i := 0 to |found|
      invariant kept + Since(since, found[i..]) == Since(since, found)
      invariant text == TextBytes(kept)
    {
      var draft := found[i];
      SinceSplits(since, found[i..]);
      assert found[i..][1..] == found[i + 1..] && found[i..][0] == draft;
      if since.Some? && draft.ts < since.value {
        assert [] + Since(since, found[i + 1..]) == Since(since, found[i + 1..]);
        continue;
      }
      assert kept + ([draft] + Since(since, found[i + 1..])) == (kept + [draft]) + Since(since, found[i + 1..]);
      TextBytesAppend(kept, [draft]);
      text := text + TextLength(draft);
      kept := kept + [draft];
    }
    assert found[|found|..] == [] && kept + [] == kept;
  }

  lemma LoneTextBytes()
    ensures TextBytes([]) == 0 && forall d :: TextBytes([d]) == TextLength(d)
  {
    assert forall d: RecordDraft :: [d][1..] == [];
  }

  /** One pass of the loop: the rest of a skipped line, or one line; `go` says whether to go on. */
  method TakeTurn(src: Source, file: File, reader: Reader, b: Budget, from: nat, m: Mark)
      returns (next: Mark, kept: seq<RecordDraft>, text: nat, go: bool)
    requires reader.Valid() && reader.content == file.content && reader.pos == m.offset
    requires from <= m.offset && m.offset - from < b.maxScan
    modifies reader
    ensures (if go then Continue(next, kept) else Break(next))
        == TurnOf(RulesOf(src), file.content, Constant(file.modified), b, from, m)
    ensures text == TextBytes(kept)
    ensures reader.Valid() && (go ==> reader.pos == next.offset)
  {
    hide NewlineAt, Since, OutcomeOf, Skip, Taken, LineCap;
    ghost var rules, stamp := RulesOf(src), Constant(file.modified);
    if m.skipping {
      var skipped := reader.SkipThroughNewline(b.maxScan - (m.offset - from));
      next := Mark(m.offset + skipped.bytes, m.lastMessageTs, !skipped.reachedNewline);
      return next, [], 0, skipped.reachedNewline;
    }
    var cap: nat := LineCap(src.identity);
    var readCap := ReadCap(cap, b, m.offset - from);
    var line := reader.ReadUntil(readCap);
    if !Complete(line) {
      if |line| < readCap || readCap < cap {
        return m, [], 0, false;
      }
      return Mark(m.offset + |line|, m.lastMessageTs, true), [], 0, true;
    }
    var outcome := OutcomeOf(src, line, m.lastMessageTs, file.modified);
    kept, text := Keep(src.since, outcome.drafts);
    next := Mark(m.offset + |line|, outcome.messageTs.Or(m.lastMessageTs), false);
    go := true;
  }

  /** The loop of `read_increment`, from where reading begins. */
  method ReadLines(
      src: Source, file: File, start: Mark, b: Budget, chunk: nat -> nat) returns (drafts: seq<RecordDraft>, m: Mark)
    requires start.offset <= |file.content|
    ensures Outcome(drafts, m)
        == Scan(RulesOf(src), file.content, Constant(file.modified), b, start.offset, start, 0, 0)
  {
    hide Scan, TurnOf, RulesOf, Constant, NewlineAt, OutcomeOf;
    ghost var rules, stamp := RulesOf(src), Constant(file.modified);
    var from := start.offset;
    ghost var whole := Scan(rules, file.content, stamp, b, from, start, 0, 0);
    var reader := new Reader(file.content, from, chunk);
    var text, go := 0, true;
    drafts, m := [], start;
    assert text == TextBytes(drafts) && [] + whole.drafts == whole.drafts;
    while go && !Spent(b, m.offset - from, |drafts|, text)
      invariant reader.Valid() && reader.content == file.content
      invariant from <= m.offset <= |file.content|
      invariant go ==> reader.pos == m.offset
      invariant text == TextBytes(drafts)
      invariant whole == if go then Prepend(drafts, Scan(rules, file.content, stamp, b, from, m, |drafts|, text))
          else Outcome(drafts, m)
      decreases go, |file.content| - m.offset
    {
      UnfoldScan(rules, file.content, stamp, b, from, m, |drafts|, text);
      var kept, keptText;
      m, kept, keptText, go := TakeTurn(src, file, reader, b, from, m);
      if go {
        Appended(drafts, kept, whole, Scan(rules, file.content, stamp, b, from, m, |drafts| + |kept|, text + keptText));
        TextBytesAppend(drafts, kept);
        drafts, text := drafts + kept, text + keptText;
      }
    }
    UnfoldScan(rules, file.content, stamp, b, from, m, |drafts|, text);
  }

  lemma {:induction false} Appended(drafts: seq<RecordDraft>, turn: seq<RecordDraft>, whole: Outcome, rest: Outcome)
    requires whole == Prepend(drafts, Prepend(turn, rest))
    ensures whole == Prepend(drafts + turn, rest)
  {
    assert drafts + (turn + rest.drafts) == (drafts + turn) + rest.drafts;
  }

  /** One increment of the file, or nothing. */
  method ReadIncrement(
      src: Source, file: File, cursor: Option<FileCursor>, b: Budget, chunk: nat -> nat) returns (r: Option<Increment>)
    ensures r == IncrementOf(src, file, cursor, b)
  {
    hide Scan, RulesOf, StartOf, Constant;
    var started := StartOf(src, file, cursor);
    if started.None? {
      return None;
    }
    var start := started.value;
    if |file.content| == start.mark.offset {
      ghost var rules, stamp, m := RulesOf(src), Constant(file.modified), start.mark;
      ghost var scan := Scan(rules, file.content, stamp, b, m.offset, m, 0, 0);
      assert scan.mark.offset == start.mark.offset;
      return None;
    }
    var drafts, m := ReadLines(src, file, start.mark, b, chunk);
    r := if m.offset == start.mark.offset then None else Some(Increment(drafts, start.(mark := m)));
  }
}
