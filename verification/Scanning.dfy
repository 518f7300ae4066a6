/** The budgeted read of one increment (the loop of `read_increment` in
    src/providers/claude_code.rs) and why any slicing of the work is the one read. */
module Scanning {
  import opened Options
  import opened Records
  import opened Reading

  datatype Budget = Budget(maxRecords: nat, maxBytes: nat, maxScan: nat)

  datatype Skipped = Skipped(bytes: nat, reachedNewline: bool)

  function Min(a: nat, b: nat): nat { if a < b then a else b }

  /** What skipping to a newline within `limit` bytes passes over. */
  function Skip(content: seq<Byte>, from: nat, limit: nat): (s: Skipped)
    requires from <= |content|
    ensures from + s.bytes <= |content|
  {
    var n := NewlineAt(content, from);
    if n < |content| && n + 1 - from <= limit then Skipped(n + 1 - from, true)
    else Skipped(Min(limit, |content| - from), false)
  }

  /** The bytes up to and with the next newline, at most `cap` of them. */
  function Taken(content: seq<Byte>, from: nat, cap: nat): (line: seq<Byte>)
    requires from <= |content|
    ensures from + |line| <= |content|
  {
    var n := NewlineAt(content, from);
    content[from..Min(from + cap, if n < |content| then n + 1 else n)]
  }

  predicate Complete(line: seq<Byte>) { line != [] && line[|line| - 1] == NEWLINE }

  /** How much of a line may be read once `scanned` bytes are behind; the first line of an
      increment is held back by the line cap alone. */
  function ReadCap(cap: nat, b: Budget, scanned: nat): nat
    requires scanned < b.maxScan
  {
    if scanned == 0 then cap else Min(cap, b.maxScan - scanned)
  }

  datatype Turn = Break(mark: Mark) | Continue(next: Mark, drafts: seq<RecordDraft>)

  /** One pass of the loop. */
  function TurnOf(rules: Rules, content: seq<Byte>, stamp: Stamp, b: Budget, start: nat, m: Mark): (t: Turn)
    requires start <= m.offset <= |content| && m.offset - start < b.maxScan
    ensures t.Break? ==> m.offset <= t.mark.offset <= |content|
    ensures t.Continue? ==> m.offset < t.next.offset <= |content|
  {
    var scanned := m.offset - start;
    if m.skipping then
      var skipped := Skip(content, m.offset, b.maxScan - scanned);
      if skipped.reachedNewline then Continue(Mark(m.offset + skipped.bytes, m.lastMessageTs, false), [])
      else Break(m.(offset := m.offset + skipped.bytes))
    else
      var readCap := ReadCap(rules.cap, b, scanned);
      var line := Taken(content, m.offset, readCap);
      if Complete(line) then
        var effect := rules.effect(line, m.lastMessageTs, stamp(m.offset));
        Continue(Mark(m.offset + |line|, effect.lastMessageTs, false), effect.drafts)
      else if |line| < readCap || readCap < rules.cap then Break(m)
      else Continue(Mark(m.offset + |line|, m.lastMessageTs, true), [])
  }

  predicate Spent(b: Budget, scanned: nat, records: nat, text: nat) {
    records >= b.maxRecords || text >= b.maxBytes || scanned >= b.maxScan
  }

  /** The loop from mark `m` on, with `records` drafts of `text` bytes already in hand. */
  function Scan(
      rules: Rules, content: seq<Byte>, stamp: Stamp, b: Budget, start: nat, m: Mark, records: nat,
      text: nat): (r: Outcome)
    requires start <= m.offset <= |content|
    ensures m.offset <= r.mark.offset <= |content|
    decreases |content| - m.offset
  {
    if Spent(b, m.offset - start, records, text) then Outcome([], m)
    else match TurnOf(rules, content, stamp, b, start, m)
      case Break(mark) => Outcome([], mark)
      case Continue(next, drafts) =>
        Prepend(drafts, Scan(rules, content, stamp, b, start, next, records + |drafts|, text + TextBytes(drafts)))
  }

  /** One turn of a scan, for proofs that hide its definition. */
  lemma {:induction false} UnfoldScan(
      rules: Rules, content: seq<Byte>, stamp: Stamp, b: Budget, start: nat, m: Mark, records: nat, text: nat)
    requires start <= m.offset <= |content|
    ensures Scan(rules, content, stamp, b, start, m, records, text) ==
            if Spent(b, m.offset - start, records, text) then Outcome([], m)
            else match TurnOf(rules, content, stamp, b, start, m)
                 case Break(mark) => Outcome([], mark)
                 case Continue(next, drafts) =>
                   Prepend(drafts, Scan(rules, content, stamp, b, start, next, records + |drafts|,
                       text + TextBytes(drafts)))
  {
    hide TurnOf, TextBytes, NewlineAt;
  }

  /** What is taken is a complete line when it ends within the cap, and otherwise the bytes up to the
      cap or the end. */
  lemma {:induction false} TakenExactly(content: seq<Byte>, from: nat, cap: nat)
    requires from <= |content|
    ensures var n, line := NewlineAt(content, from), Taken(content, from, cap);
            if n < |content| && n + 1 - from <= cap then Complete(line) && line == content[from..n + 1]
            else !Complete(line) && |line| == Min(cap, n - from)
  {
    hide NewlineAt;
    var n, line := NewlineAt(content, from), Taken(content, from, cap);
    assert forall i :: 0 <= i < |line| ==> line[i] == content[from + i];
  }

  /** A turn that goes on is a step of the unbudgeted read, whatever the budget. */
  lemma {:induction false} TurnIsStep(rules: Rules, content: seq<Byte>, stamp: Stamp, b: Budget, start: nat, m: Mark)
    requires start <= m.offset <= |content| && m.offset - start < b.maxScan
    ensures match TurnOf(rules, content, stamp, b, start, m)
            case Continue(next, drafts) =>
              Next(rules, content, stamp, m) == Advance(next, drafts) && (m.skipping ==> !next.skipping)
            case Break(mark) =>
              mark == m || (m.skipping && mark == m.(offset := mark.offset)
                  && mark.offset <= NewlineAt(content, m.offset))
  {
    hide NewlineAt, Taken, Complete;
    if !m.skipping {
      TakenExactly(content, m.offset, ReadCap(rules.cap, b, m.offset - start));
    }
  }

  /** A step survives cutting the content at any point it does not reach past. */
  lemma {:induction false} StepSurvives(rules: Rules, content: seq<Byte>, stamp: Stamp, k: nat, m: Mark)
    requires m.offset <= k <= |content|
    requires Next(rules, content, stamp, m).Advance?
    requires var next := Next(rules, content, stamp, m).next; next.offset <= k && (m.skipping ==> !next.skipping)
    ensures Next(rules, content[..k], stamp, m) == Next(rules, content, stamp, m)
  {
    hide NewlineAt;
    NewlineInPrefix(content, k, m.offset);
    var n := NewlineAt(content, m.offset);
    if n < k {
      SliceOfPrefix(content, k, m.offset, n + 1);
    }
  }

  /** At the end of the content there is nothing to do. */
  lemma {:induction false} ReadAtEnd(rules: Rules, content: seq<Byte>, stamp: Stamp, m: Mark)
    requires m.offset == |content|
    ensures Read(rules, content, stamp, m) == Outcome([], m)
  {
  }

  /** Breaking off within a skipped line, or standing still, is the read of the bytes passed. */
  lemma {:induction false} BreakIsRead(rules: Rules, content: seq<Byte>, stamp: Stamp, m: Mark, mark: Mark)
    requires m.offset <= mark.offset <= |content|
    requires mark == m || (m.skipping && mark == m.(offset := mark.offset)
        && mark.offset <= NewlineAt(content, m.offset))
    ensures Read(rules, content[..mark.offset], stamp, m) == Outcome([], mark)
  {
    hide *;
    if mark != m {
      NewlineInPrefix(content, mark.offset, m.offset);
      SkipResumes(rules, content[..mark.offset], stamp, m, mark.offset);
    }
    ReadAtEnd(rules, content[..mark.offset], stamp, mark);
  }

  /** Whatever the budget, an increment yields exactly the read of the bytes it passed. */
  lemma {:induction false} ScanIsReadOfPassed(
      rules: Rules, content: seq<Byte>, stamp: Stamp, b: Budget, start: nat, m: Mark, records: nat, text: nat)
    requires start <= m.offset <= |content|
    ensures var scan := Scan(rules, content, stamp, b, start, m, records, text);
            Read(rules, content[..scan.mark.offset], stamp, m) == scan
    decreases |content| - m.offset
  {
    hide Read, Next, Scan, TurnOf, NewlineAt, TextBytes;
    UnfoldScan(rules, content, stamp, b, start, m, records, text);
    var k := Scan(rules, content, stamp, b, start, m, records, text).mark.offset;
    if Spent(b, m.offset - start, records, text) {
      ReadAtEnd(rules, content[..k], stamp, m);
    } else {
      TurnIsStep(rules, content, stamp, b, start, m);
      match TurnOf(rules, content, stamp, b, start, m)
      case Break(mark) =>
        BreakIsRead(rules, content, stamp, m, mark);
      case Continue(next, drafts) =>
        ScanIsReadOfPassed(rules, content, stamp, b, start, next, records + |drafts|, text + TextBytes(drafts));
        StepSurvives(rules, content, stamp, k, m);
        Unfold(rules, content[..k], stamp, m);
    }
  }

  /** Reading on from where an increment stopped completes the one read. */
  lemma {:induction false} ScanThenRead(
      rules: Rules, content: seq<Byte>, stamp: Stamp, b: Budget, m: Mark)
    requires m.offset <= |content|
    ensures var scan := Scan(rules, content, stamp, b, m.offset, m, 0, 0);
            Read(rules, content, stamp, m) == Prepend(scan.drafts, Read(rules, content, stamp, scan.mark))
  {
    hide *;
    ScanIsReadOfPassed(rules, content, stamp, b, m.offset, m, 0, 0);
    ReadExtends(rules, content, stamp, Scan(rules, content, stamp, b, m.offset, m, 0, 0).mark.offset, m);
  }

  predicate AllPositive(b: Budget) { b.maxRecords > 0 && b.maxBytes > 0 && b.maxScan > 0 }

  /** With every budget positive, an increment stands still only where no step is left. */
  lemma {:induction false} ScanStops(rules: Rules, content: seq<Byte>, stamp: Stamp, b: Budget, m: Mark)
    requires m.offset <= |content| && AllPositive(b)
    ensures Scan(rules, content, stamp, b, m.offset, m, 0, 0).mark.offset == m.offset <==>
        Next(rules, content, stamp, m).Stop?
    ensures Next(rules, content, stamp, m).Stop? ==> Scan(rules, content, stamp, b, m.offset, m, 0, 0) == Outcome([], m)
  {
    hide NewlineAt, Taken, Complete;
    TurnIsStep(rules, content, stamp, b, m.offset, m);
    TakenExactly(content, m.offset, rules.cap);
  }

  /** A budget is used up, or the next step would pass more bytes than are left to scan. */
  predicate OutOfBudget(
      rules: Rules, content: seq<Byte>, stamp: Stamp, b: Budget, start: nat, m: Mark, records: nat, text: nat)
    requires start <= m.offset <= |content|
  {
    var left, step := b.maxScan - (m.offset - start), Next(rules, content, stamp, m);
    records >= b.maxRecords || text >= b.maxBytes || left <= 0
    || (m.offset > start && step.Advance? && step.next.offset - m.offset > left)
  }

  /** An increment stops only when a budget is used up, or nothing is left to pass. */
  lemma {:induction false} ScanGoesOn(
      rules: Rules, content: seq<Byte>, stamp: Stamp, b: Budget, start: nat, m: Mark, records: nat, text: nat)
    requires start <= m.offset <= |content|
    ensures var scan := Scan(rules, content, stamp, b, start, m, records, text);
            Next(rules, content, stamp, scan.mark).Stop?
            || OutOfBudget(rules, content, stamp, b, start, scan.mark, records + |scan.drafts|,
                text + TextBytes(scan.drafts))
    decreases |content| - m.offset
  {
    hide Scan, TurnOf, NewlineAt, TextBytes, Next, OutOfBudget;
    UnfoldScan(rules, content, stamp, b, start, m, records, text);
    NoTextBytes();
    if Spent(b, m.offset - start, records, text) {
      SpentIsOut(rules, content, stamp, b, start, m, records, text);
    } else {
      match TurnOf(rules, content, stamp, b, start, m)
      case Break(mark) =>
        BreakIsOut(rules, content, stamp, b, start, m, records, text);
      case Continue(next, drafts) =>
        ScanGoesOn(rules, content, stamp, b, start, next, records + |drafts|, text + TextBytes(drafts));
        TextBytesAppend(drafts,
            Scan(rules, content, stamp, b, start, next, records + |drafts|, text + TextBytes(drafts)).drafts);
    }
  }

  lemma NoTextBytes()
    ensures TextBytes([]) == 0
  {
  }

  lemma SpentIsOut(
      rules: Rules, content: seq<Byte>, stamp: Stamp, b: Budget, start: nat, m: Mark, records: nat, text: nat)
    requires start <= m.offset <= |content| && Spent(b, m.offset - start, records, text)
    ensures OutOfBudget(rules, content, stamp, b, start, m, records, text)
  {
    hide Next;
  }

  lemma {:induction false} BreakIsOut(
      rules: Rules, content: seq<Byte>, stamp: Stamp, b: Budget, start: nat, m: Mark, records: nat, text: nat)
    requires start <= m.offset <= |content| && m.offset - start < b.maxScan
    requires TurnOf(rules, content, stamp, b, start, m).Break?
    ensures var mark := TurnOf(rules, content, stamp, b, start, m).mark;
            Next(rules, content, stamp, mark).Stop? || OutOfBudget(rules, content, stamp, b, start, mark, records, text)
  {
    hide NewlineAt, Taken, Complete;
    if m.skipping {
      var mark := TurnOf(rules, content, stamp, b, start, m).mark;
      if mark.offset == |content| {
        NewlineSkips(content, m.offset, NewlineAt(content, m.offset));
      }
    } else {
      TakenExactly(content, m.offset, ReadCap(rules.cap, b, m.offset - start));
    }
  }

  /** A budget that the whole read fits in. */
  predicate Ample(
      rules: Rules, content: seq<Byte>, stamp: Stamp, b: Budget, start: nat, m: Mark, records: nat, text: nat)
    requires start <= m.offset <= |content|
  {
    var all := Read(rules, content, stamp, m);
    b.maxScan > |content| - start && b.maxRecords > records + |all.drafts| && b.maxBytes > text + TextBytes(all.drafts)
  }

  lemma {:induction false} TextBytesAppend(a: seq<RecordDraft>, b: seq<RecordDraft>)
    ensures TextBytes(a + b) == TextBytes(a) + TextBytes(b)
  {
    if a == [] {
      assert a + b == b;
    } else {
      assert (a + b)[1..] == a[1..] + b;
      TextBytesAppend(a[1..], b);
    }
  }

  /** With room for everything a turn stops only where the read does. */
  lemma {:induction false} AmpleTurn(rules: Rules, content: seq<Byte>, stamp: Stamp, b: Budget, start: nat, m: Mark)
    requires start <= m.offset <= |content| && b.maxScan > |content| - start
    ensures match TurnOf(rules, content, stamp, b, start, m)
            case Continue(next, drafts) => Next(rules, content, stamp, m) == Advance(next, drafts)
            case Break(mark) => Read(rules, content, stamp, m) == Outcome([], mark)
  {
    hide NewlineAt, Taken, Complete, Read;
    if m.skipping {
      if TurnOf(rules, content, stamp, b, start, m).Break? {
        SkippedToEnd(rules, content, stamp, m);
      }
    } else {
      TurnIsStep(rules, content, stamp, b, start, m);
      TakenExactly(content, m.offset, ReadCap(rules.cap, b, m.offset - start));
      Unfold(rules, content, stamp, m);
    }
  }

  lemma {:induction false} SkippedToEnd(rules: Rules, content: seq<Byte>, stamp: Stamp, m: Mark)
    requires m.skipping && m.offset <= |content| && NewlineAt(content, m.offset) == |content|
    ensures Read(rules, content, stamp, m) == Outcome([], m.(offset := |content|))
  {
    hide *;
    SkipResumes(rules, content, stamp, m, |content|);
    ReadAtEnd(rules, content, stamp, m.(offset := |content|));
  }

  /** One increment with room for everything is the whole read: the unbounded read. */
  lemma {:induction false} AmpleScanIsRead(
      rules: Rules, content: seq<Byte>, stamp: Stamp, b: Budget, start: nat, m: Mark, records: nat, text: nat)
    requires start <= m.offset <= |content|
    requires Ample(rules, content, stamp, b, start, m, records, text)
    ensures Scan(rules, content, stamp, b, start, m, records, text) == Read(rules, content, stamp, m)
    decreases |content| - m.offset
  {
    hide Read, Next, TurnOf, Scan, TextBytes;
    UnfoldScan(rules, content, stamp, b, start, m, records, text);
    AmpleTurn(rules, content, stamp, b, start, m);
    match TurnOf(rules, content, stamp, b, start, m)
    case Break(_) =>
    case Continue(next, drafts) =>
      Unfold(rules, content, stamp, m);
      TextBytesAppend(drafts, Read(rules, content, stamp, next).drafts);
      AmpleScanIsRead(rules, content, stamp, b, start, next, records + |drafts|, text + TextBytes(drafts));
  }

  /** What the first turn may take whatever the scan budget: its first line, or a cap's worth. */
  function FirstTake(rules: Rules, content: seq<Byte>, start: nat): nat
    requires start <= |content|
  {
    |Taken(content, start, rules.cap)|
  }

  lemma {:induction false} TurnBounded(rules: Rules, content: seq<Byte>, stamp: Stamp, b: Budget, start: nat, m: Mark)
    requires start <= m.offset <= |content| && m.offset - start < b.maxScan
    ensures var t := TurnOf(rules, content, stamp, b, start, m);
            var passed := (if t.Break? then t.mark else t.next).offset - start;
            passed <= b.maxScan || passed <= FirstTake(rules, content, start)
  {
  }

  /** An increment passes at most its scan budget, or its first line or cap-sized chunk. */
  lemma {:induction false} ScanBounded(
      rules: Rules, content: seq<Byte>, stamp: Stamp, b: Budget, start: nat, m: Mark, records: nat, text: nat)
    requires start <= m.offset <= |content|
    requires m.offset - start <= b.maxScan || m.offset - start <= FirstTake(rules, content, start)
    ensures var passed := Scan(rules, content, stamp, b, start, m, records, text).mark.offset - start;
            passed <= b.maxScan || passed <= FirstTake(rules, content, start)
    decreases |content| - m.offset
  {
    hide Scan, TurnOf, NewlineAt, FirstTake;
    UnfoldScan(rules, content, stamp, b, start, m, records, text);
    if !Spent(b, m.offset - start, records, text) {
      TurnBounded(rules, content, stamp, b, start, m);
      match TurnOf(rules, content, stamp, b, start, m)
      case Break(_) =>
      case Continue(next, drafts) =>
        ScanBounded(rules, content, stamp, b, start, next, records + |drafts|, text + TextBytes(drafts));
    }
  }

  /** A complete line within the cap begins at `from`. */
  predicate IsLine(rules: Rules, content: seq<Byte>, from: nat) {
    from < |content| && NewlineAt(content, from) < |content| && NewlineAt(content, from) + 1 - from <= rules.cap
  }

  function LineDrafts(rules: Rules, content: seq<Byte>, stamp: Stamp, from: nat, last: Option<int>): seq<RecordDraft>
    requires IsLine(rules, content, from)
  {
    rules.effect(content[from..NewlineAt(content, from) + 1], last, stamp(from)).drafts
  }

  /** The drafts of one turn are those of the line it takes. */
  lemma {:induction false} TurnReadsOneLine(
      rules: Rules, content: seq<Byte>, stamp: Stamp, b: Budget, start: nat, m: Mark)
    requires start <= m.offset <= |content| && m.offset - start < b.maxScan
    ensures var t := TurnOf(rules, content, stamp, b, start, m);
            t.Continue? && t.drafts != [] ==>
              && IsLine(rules, content, m.offset) && t.next.offset == NewlineAt(content, m.offset) + 1
              && t.drafts == LineDrafts(rules, content, stamp, m.offset, m.lastMessageTs)
  {
    TurnIsStep(rules, content, stamp, b, start, m);
  }

  /** `drafts` stay within the record and text budgets once those of one last line are taken off. */
  predicate OverByOneLine(
      b: Budget, records: nat, text: nat, drafts: seq<RecordDraft>, before: seq<RecordDraft>, line: seq<RecordDraft>) {
    drafts == before + line && records + |before| < b.maxRecords && text + TextBytes(before) < b.maxBytes
  }

  lemma {:induction false} OverByOneLinePrepends(
      b: Budget, records: nat, text: nat, turn: seq<RecordDraft>, drafts: seq<RecordDraft>, before: seq<RecordDraft>,
      line: seq<RecordDraft>)
    requires OverByOneLine(b, records + |turn|, text + TextBytes(turn), drafts, before, line)
    ensures OverByOneLine(b, records, text, turn + drafts, turn + before, line)
  {
    TextBytesAppend(turn, before);
    assert turn + (before + line) == (turn + before) + line;
  }

  /** An increment overshoots its record and text budgets by the drafts of one line at most: a
      complete line within the cap, and the last of those passed that drafted anything. */
  lemma {:induction false} ScanOvershoot(
      rules: Rules, content: seq<Byte>, stamp: Stamp, b: Budget, start: nat, m: Mark, records: nat, text: nat)
      returns (before: seq<RecordDraft>, from: nat, last: Option<int>)
    requires start <= m.offset <= |content|
    ensures var scan := Scan(rules, content, stamp, b, start, m, records, text);
            scan.drafts != [] ==>
              && m.offset <= from && IsLine(rules, content, from) && NewlineAt(content, from) < scan.mark.offset
              && OverByOneLine(b, records, text, scan.drafts, before, LineDrafts(rules, content, stamp, from, last))
    decreases |content| - m.offset
  {
    hide Scan, TurnOf, OverByOneLine, NewlineAt, TextBytes, IsLine, LineDrafts;
    UnfoldScan(rules, content, stamp, b, start, m, records, text);
    if Spent(b, m.offset - start, records, text) || TurnOf(rules, content, stamp, b, start, m).Break? {
      return [], 0, None;
    }
    var t := TurnOf(rules, content, stamp, b, start, m);
    var rest := Scan(rules, content, stamp, b, start, t.next, records + |t.drafts|, text + TextBytes(t.drafts));
    TurnReadsOneLine(rules, content, stamp, b, start, m);
    if rest.drafts == [] {
      LoneLine(b, records, text, t.drafts);
      return [], m.offset, m.lastMessageTs;
    }
    var later, at, carried :=
      ScanOvershoot(rules, content, stamp, b, start, t.next, records + |t.drafts|, text + TextBytes(t.drafts));
    OverByOneLinePrepends(b, records, text, t.drafts, rest.drafts, later,
        LineDrafts(rules, content, stamp, at, carried));
    return t.drafts + later, at, carried;
  }

  lemma {:induction false} LoneLine(b: Budget, records: nat, text: nat, line: seq<RecordDraft>)
    requires records < b.maxRecords && text < b.maxBytes
    ensures OverByOneLine(b, records, text, line + [], [], line)
  {
    assert line + [] == [] + line;
  }

  /** Increments of changing budgets, one after another until one stands still. */
  function Drain(rules: Rules, content: seq<Byte>, stamp: Stamp, budgets: nat -> Budget, i: nat, m: Mark): Outcome
    requires m.offset <= |content|
    decreases |content| - m.offset
  {
    var scan := Scan(rules, content, stamp, budgets(i), m.offset, m, 0, 0);
    if scan.mark.offset == m.offset then Outcome([], m)
    else Prepend(scan.drafts, Drain(rules, content, stamp, budgets, i + 1, scan.mark))
  }

  /** Any slicing into positive budgets comes to the one read. */
  lemma {:induction false} AnySlicing(
      rules: Rules, content: seq<Byte>, stamp: Stamp, budgets: nat -> Budget, i: nat, m: Mark)
    requires m.offset <= |content|
    requires forall j :: AllPositive(budgets(j))
    ensures Drain(rules, content, stamp, budgets, i, m) == Read(rules, content, stamp, m)
    decreases |content| - m.offset
  {
    hide Scan, Read, Next;
    ScanStops(rules, content, stamp, budgets(i), m);
    ScanThenRead(rules, content, stamp, budgets(i), m);
    Unfold(rules, content, stamp, m);
    var scan := Scan(rules, content, stamp, budgets(i), m.offset, m, 0, 0);
    if scan.mark.offset != m.offset {
      AnySlicing(rules, content, stamp, budgets, i + 1, scan.mark);
    }
  }

  /** Slices of any positive size and one increment with room for everything agree. */
  lemma {:induction false} SlicingIsOneIncrement(
      rules: Rules, content: seq<Byte>, stamp: Stamp, budgets: nat -> Budget, ample: Budget, m: Mark)
    requires m.offset <= |content|
    requires forall j :: AllPositive(budgets(j))
    requires Ample(rules, content, stamp, ample, m.offset, m, 0, 0)
    ensures Drain(rules, content, stamp, budgets, 0, m) == Scan(rules, content, stamp, ample, m.offset, m, 0, 0)
  {
    AnySlicing(rules, content, stamp, budgets, 0, m);
    AmpleScanIsRead(rules, content, stamp, ample, m.offset, m, 0, 0);
  }
}
