/** The meaning of reading a transcript, free of budgets: small steps from one mark to the next,
    the full read they compose to, and the same read told as a list of lines. */
module Reading {
  import opened Options
  import opened Records

  const NEWLINE: Byte := 10

  const START := Mark(0, None, false)

  type Positive = n: int | 0 < n witness 1

  /** What a line of bytes yields, given the carried message time and the file's modification
      time: the drafts that ship and the message time to carry on. */
  datatype Effect = Effect(drafts: seq<RecordDraft>, lastMessageTs: Option<int>)

  /** The longest line that is parsed, its newline included, and the meaning of a parsed line. */
  datatype Rules = Rules(cap: Positive, effect: (seq<Byte>, Option<int>, int) -> Effect)

  /** The first newline at or after `from`, or the length when there is none. */
  function NewlineAt(content: seq<Byte>, from: nat): (n: nat)
    requires from <= |content|
    ensures from <= n <= |content|
    ensures forall i :: from <= i < n ==> content[i] != NEWLINE
    ensures n < |content| ==> content[n] == NEWLINE
    decreases |content| - from
  {
    if from == |content| || content[from] == NEWLINE then from else NewlineAt(content, from + 1)
  }

  datatype Step = Stop | Advance(next: Mark, drafts: seq<RecordDraft>)

  /** The time each byte offset's line was read under; constant within one increment. */
  type Stamp = nat -> int

  /** One step of an unbudgeted read: through the rest of a skipped line, over one complete line
      within the cap, or into a line that is over it. */
  function Next(rules: Rules, content: seq<Byte>, stamp: Stamp, m: Mark): (step: Step)
    requires m.offset <= |content|
    ensures step.Advance? ==> m.offset < step.next.offset <= |content|
  {
    var n := NewlineAt(content, m.offset);
    if m.skipping then
      if n < |content| then Advance(Mark(n + 1, m.lastMessageTs, false), [])
      else if m.offset < |content| then Advance(Mark(|content|, m.lastMessageTs, true), [])
      else Stop
    else if n < |content| && n + 1 - m.offset <= rules.cap then
      var effect := rules.effect(content[m.offset..n + 1], m.lastMessageTs, stamp(m.offset));
      Advance(Mark(n + 1, effect.lastMessageTs, false), effect.drafts)
    else if n - m.offset >= rules.cap then
      Advance(Mark(m.offset + rules.cap, m.lastMessageTs, true), [])
    else Stop
  }

  datatype Outcome = Outcome(drafts: seq<RecordDraft>, mark: Mark)

  /** Steps until none is left. */
  function Read(rules: Rules, content: seq<Byte>, stamp: Stamp, m: Mark): (r: Outcome)
    requires m.offset <= |content|
    ensures m.offset <= r.mark.offset <= |content|
    ensures Next(rules, content, stamp, r.mark).Stop?
    decreases |content| - m.offset
  {
    match Next(rules, content, stamp, m)
    case Stop => Outcome([], m)
    case Advance(next, drafts) => Prepend(drafts, Read(rules, content, stamp, next))
  }

  function Prepend(drafts: seq<RecordDraft>, o: Outcome): Outcome {
    Outcome(drafts + o.drafts, o.mark)
  }

  lemma NewlineInPrefix(content: seq<Byte>, k: nat, from: nat)
    requires from <= k <= |content|
    ensures NewlineAt(content[..k], from) == if NewlineAt(content, from) < k then NewlineAt(content, from) else k
  {
  }

  /** The newline found from any point before it is the same one. */
  lemma NewlineSkips(content: seq<Byte>, from: nat, to: nat)
    requires from <= |content|
    requires from <= to <= NewlineAt(content, from)
    ensures NewlineAt(content, to) == NewlineAt(content, from)
  {
  }

  /** One step of a read, for proofs that hide its definition. */
  lemma {:induction false} Unfold(rules: Rules, content: seq<Byte>, stamp: Stamp, m: Mark)
    requires m.offset <= |content|
    ensures match Next(rules, content, stamp, m)
            case Stop => Read(rules, content, stamp, m) == Outcome([], m)
            case Advance(next, drafts) =>
              Read(rules, content, stamp, m) == Prepend(drafts, Read(rules, content, stamp, next))
  {
  }

  /** A step that drafts nothing can be left out. */
  lemma {:induction false} SilentStep(rules: Rules, content: seq<Byte>, stamp: Stamp, m: Mark, next: Mark)
    requires m.offset <= |content|
    requires Next(rules, content, stamp, m) == Advance(next, [])
    ensures Read(rules, content, stamp, m) == Read(rules, content, stamp, next)
  {
    hide Read, Next;
    Unfold(rules, content, stamp, m);
    var rest := Read(rules, content, stamp, next);
    assert [] + rest.drafts == rest.drafts;
  }

  /** A skipped line may be left anywhere before its newline without changing the read. */
  lemma {:induction false} SkipResumes(rules: Rules, content: seq<Byte>, stamp: Stamp, m: Mark, to: nat)
    requires m.skipping && m.offset <= to <= |content|
    requires to <= NewlineAt(content, m.offset)
    ensures Read(rules, content, stamp, m) == Read(rules, content, stamp, m.(offset := to))
  {
    NewlineSkips(content, m.offset, to);
    var n := NewlineAt(content, to);
    var end := if n < |content| then Mark(n + 1, m.lastMessageTs, false) else m.(offset := n);
    assert m.offset < end.offset ==> Next(rules, content, stamp, m) == Advance(end, []);
    assert to < end.offset ==> Next(rules, content, stamp, m.(offset := to)) == Advance(end, []);
    hide *;
    if m.offset < end.offset {
      SilentStep(rules, content, stamp, m, end);
    }
    if to < end.offset {
      SilentStep(rules, content, stamp, m.(offset := to), end);
    }
  }

  lemma SliceOfPrefix(content: seq<Byte>, k: nat, from: nat, to: nat)
    requires from <= to <= k <= |content|
    ensures content[..k][from..to] == content[from..to]
  {
  }

  /** A step that a prefix allows is the step of the whole, except that a skip which ran into
      the prefix's end goes on. */
  lemma {:induction false} StepInPrefix(rules: Rules, content: seq<Byte>, stamp: Stamp, k: nat, m: Mark)
    requires m.offset <= k <= |content|
    requires Next(rules, content[..k], stamp, m).Advance?
    ensures Next(rules, content, stamp, m) == Next(rules, content[..k], stamp, m)
            || (m.skipping && k <= NewlineAt(content, m.offset)
                && Next(rules, content[..k], stamp, m) == Advance(m.(offset := k), []))
  {
    hide NewlineAt;
    NewlineInPrefix(content, k, m.offset);
    var n := NewlineAt(content, m.offset);
    if n < k {
      SliceOfPrefix(content, k, m.offset, n + 1);
    }
  }

  /** One step of the prefix leaves what the whole reads from there on unchanged. */
  lemma {:induction false} StepExtends(rules: Rules, content: seq<Byte>, stamp: Stamp, k: nat, m: Mark)
    requires m.offset <= k <= |content|
    requires Next(rules, content[..k], stamp, m).Advance?
    ensures var step := Next(rules, content[..k], stamp, m);
            Read(rules, content, stamp, m) == Prepend(step.drafts, Read(rules, content, stamp, step.next))
  {
    hide Read, Next;
    StepInPrefix(rules, content, stamp, k, m);
    if Next(rules, content, stamp, m) == Next(rules, content[..k], stamp, m) {
      Unfold(rules, content, stamp, m);
    } else {
      SkipResumes(rules, content, stamp, m, k);
      var rest := Read(rules, content, stamp, m.(offset := k));
      assert [] + rest.drafts == rest.drafts;
    }
  }

  /** Reading a file that grew is reading what was there and then going on from the mark. */
  lemma {:induction false} ReadExtends(rules: Rules, content: seq<Byte>, stamp: Stamp, k: nat, m: Mark)
    requires m.offset <= k <= |content|
    ensures var first := Read(rules, content[..k], stamp, m);
            Read(rules, content, stamp, m) == Prepend(first.drafts, Read(rules, content, stamp, first.mark))
    decreases k - m.offset
  {
    hide Read, Next;
    Unfold(rules, content[..k], stamp, m);
    match Next(rules, content[..k], stamp, m)
    case Stop =>
      var all := Read(rules, content, stamp, m);
      assert [] + all.drafts == all.drafts;
    case Advance(next, drafts) =>
      StepExtends(rules, content, stamp, k, m);
      ReadExtends(rules, content, stamp, k, next);
      var first := Read(rules, content[..k], stamp, next);
      var rest := Read(rules, content, stamp, first.mark);
      assert drafts + (first.drafts + rest.drafts) == (drafts + first.drafts) + rest.drafts;
  }

  /** Only the stamps of the bytes still ahead matter. */
  lemma {:induction false} ReadAgrees(rules: Rules, content: seq<Byte>, f: Stamp, g: Stamp, m: Mark)
    requires m.offset <= |content|
    requires forall i :: m.offset <= i < |content| ==> f(i) == g(i)
    ensures Read(rules, content, f, m) == Read(rules, content, g, m)
    decreases |content| - m.offset
  {
    if m.offset < |content| {
      assert f(m.offset) == g(m.offset);
      match Next(rules, content, f, m)
      case Stop =>
      case Advance(next, _) => ReadAgrees(rules, content, f, g, next);
    }
  }

  // ---- The same read, told as lines ----

  /** The complete lines from `from` on, each with its newline and its offset. */
  function LinesFrom(content: seq<Byte>, from: nat): seq<(nat, seq<Byte>)>
    requires from <= |content|
    decreases |content| - from
  {
    var n := NewlineAt(content, from);
    if n == |content| then [] else [(from, content[from..n + 1])] + LinesFrom(content, n + 1)
  }

  /** Where the last, unfinished line begins. */
  function TailStart(content: seq<Byte>, from: nat): (t: nat)
    requires from <= |content|
    ensures from <= t <= |content|
    decreases |content| - from
  {
    var n := NewlineAt(content, from);
    if n == |content| then from else TailStart(content, n + 1)
  }

  function Joined(lines: seq<(nat, seq<Byte>)>): seq<Byte> {
    if lines == [] then [] else lines[0].1 + Joined(lines[1..])
  }

  /** The lines lie end to end up to the unfinished one; each holds one newline, at its end, and begins
      at its offset. */
  lemma {:induction false} LinesExactly(content: seq<Byte>, from: nat)
    requires from <= |content|
    ensures var lines, tail := LinesFrom(content, from), TailStart(content, from);
            && Joined(lines) == content[from..tail] && (forall i :: tail <= i < |content| ==> content[i] != NEWLINE)
            && forall k :: 0 <= k < |lines| ==> IsLineAt(content, lines[k].0, lines[k].1)
    decreases |content| - from
  {
    hide NewlineAt, LinesFrom, Joined, IsLineAt, TailStart;
    LinesBegin(content, from);
    var n := NewlineAt(content, from);
    if n < |content| {
      LinesExactly(content, n + 1);
      FirstLine(content, from);
      SlicesJoin(content, from, n + 1, TailStart(content, from));
    } else {
      assert content[from..from] == [];
    }
  }

  lemma {:induction false} LinesBegin(content: seq<Byte>, from: nat)
    requires from <= |content|
    ensures var n, lines, tail := NewlineAt(content, from), LinesFrom(content, from), TailStart(content, from);
            if n == |content| then lines == [] && tail == from && Joined(lines) == []
            else var rest := LinesFrom(content, n + 1);
                 && lines == [(from, content[from..n + 1])] + rest && tail == TailStart(content, n + 1)
                 && Joined(lines) == content[from..n + 1] + Joined(rest)
  {
    hide NewlineAt;
  }

  lemma SlicesJoin(content: seq<Byte>, from: nat, mid: nat, to: nat)
    requires from <= mid <= to <= |content|
    ensures content[from..mid] + content[mid..to] == content[from..to]
  {
  }

  lemma {:induction false} FirstLine(content: seq<Byte>, from: nat)
    requires from <= |content| && NewlineAt(content, from) < |content|
    ensures IsLineAt(content, from, content[from..NewlineAt(content, from) + 1])
  {
    hide NewlineAt;
  }

  predicate IsLineAt(content: seq<Byte>, at: nat, line: seq<Byte>) {
    && line != [] && at + |line| <= |content| && line == content[at..at + |line|]
    && line[|line| - 1] == 10 && forall i :: 0 <= i < |line| - 1 ==> line[i] != 10
  }

  /** Every line not longer than the cap, in order, each seeing the message time of those before. */
  function ParseLines(rules: Rules, lines: seq<(nat, seq<Byte>)>, stamp: Stamp, last: Option<int>): Effect {
    if lines == [] then Effect([], last)
    else if |lines[0].1| > rules.cap then ParseLines(rules, lines[1..], stamp, last)
    else
      var effect := rules.effect(lines[0].1, last, stamp(lines[0].0));
      var rest := ParseLines(rules, lines[1..], stamp, effect.lastMessageTs);
      Effect(effect.drafts + rest.drafts, rest.lastMessageTs)
  }

  /** The steps over a line that exceeds the cap. */
  lemma {:induction false} OverCapSteps(rules: Rules, content: seq<Byte>, stamp: Stamp, from: nat, last: Option<int>)
    requires from <= |content|
    requires NewlineAt(content, from) - from >= rules.cap
    ensures var n, over := NewlineAt(content, from), Mark(from + rules.cap, last, true);
            && over.offset <= n == NewlineAt(content, over.offset)
            && Next(rules, content, stamp, Mark(from, last, false)) == Advance(over, [])
            && (if n < |content| then Next(rules, content, stamp, over) == Advance(Mark(n + 1, last, false), [])
                else Next(rules, content, stamp, Mark(n, last, true)).Stop?)
  {
    hide NewlineAt;
    NewlineSkips(content, from, from + rules.cap);
    NewlineSkips(content, from, NewlineAt(content, from));
  }

  /** A line over the cap is passed without a draft, and a tail over it is entered. */
  lemma {:induction false} OverCap(rules: Rules, content: seq<Byte>, stamp: Stamp, from: nat, last: Option<int>)
    requires from <= |content|
    requires NewlineAt(content, from) - from >= rules.cap
    ensures var n := NewlineAt(content, from);
            Read(rules, content, stamp, Mark(from, last, false)) ==
            if n < |content| then Read(rules, content, stamp, Mark(n + 1, last, false))
            else Outcome([], Mark(n, last, true))
  {
    hide *;
    var n, over := NewlineAt(content, from), Mark(from + rules.cap, last, true);
    OverCapSteps(rules, content, stamp, from, last);
    SilentStep(rules, content, stamp, Mark(from, last, false), over);
    if n < |content| {
      SilentStep(rules, content, stamp, over, Mark(n + 1, last, false));
    } else {
      SkipResumes(rules, content, stamp, over, n);
      Unfold(rules, content, stamp, Mark(n, last, true));
    }
  }

  /** What the lines from `from` on come to: their parse, and a mark at the unfinished line,
      or past it once it is known to exceed the cap. */
  function Told(rules: Rules, content: seq<Byte>, stamp: Stamp, from: nat, last: Option<int>): Outcome
    requires from <= |content|
  {
    var parsed := ParseLines(rules, LinesFrom(content, from), stamp, last);
    var tail := TailStart(content, from);
    Outcome(parsed.drafts,
            if |content| - tail < rules.cap then Mark(tail, parsed.lastMessageTs, false)
            else Mark(|content|, parsed.lastMessageTs, true))
  }

  lemma {:induction false} ToldStep(rules: Rules, content: seq<Byte>, stamp: Stamp, from: nat, last: Option<int>)
    requires from <= |content|
    requires NewlineAt(content, from) < |content|
    ensures var n := NewlineAt(content, from);
            Told(rules, content, stamp, from, last) ==
            if n + 1 - from > rules.cap then Told(rules, content, stamp, n + 1, last)
            else var effect := rules.effect(content[from..n + 1], last, stamp(from));
                 Prepend(effect.drafts, Told(rules, content, stamp, n + 1, effect.lastMessageTs))
  {
    var n := NewlineAt(content, from);
    var lines := LinesFrom(content, from);
    assert lines[0] == (from, content[from..n + 1]) && lines[1..] == LinesFrom(content, n + 1);
  }

  lemma {:induction false} ReadStep(rules: Rules, content: seq<Byte>, stamp: Stamp, from: nat, last: Option<int>)
    requires from <= |content|
    requires NewlineAt(content, from) < |content|
    ensures var n := NewlineAt(content, from);
            Read(rules, content, stamp, Mark(from, last, false)) ==
            if n + 1 - from > rules.cap then Read(rules, content, stamp, Mark(n + 1, last, false))
            else var effect := rules.effect(content[from..n + 1], last, stamp(from));
                 Prepend(effect.drafts, Read(rules, content, stamp, Mark(n + 1, effect.lastMessageTs, false)))
  {
    if NewlineAt(content, from) - from >= rules.cap {
      OverCap(rules, content, stamp, from, last);
    }
  }

  lemma {:induction false} ReadTail(rules: Rules, content: seq<Byte>, stamp: Stamp, from: nat, last: Option<int>)
    requires from <= |content|
    requires NewlineAt(content, from) == |content|
    ensures Read(rules, content, stamp, Mark(from, last, false)) == Told(rules, content, stamp, from, last)
  {
    if |content| - from >= rules.cap {
      OverCap(rules, content, stamp, from, last);
    }
  }

  /** A read from a line boundary is the parse of the complete lines. A line counts by its length
      against the cap alone; the unfinished tail is left, unless it already exceeds the cap. */
  lemma {:induction false} ReadIsParse(rules: Rules, content: seq<Byte>, stamp: Stamp, from: nat, last: Option<int>)
    requires from <= |content|
    ensures Read(rules, content, stamp, Mark(from, last, false)) == Told(rules, content, stamp, from, last)
    decreases |content| - from
  {
    hide *;
    var n := NewlineAt(content, from);
    if n == |content| {
      ReadTail(rules, content, stamp, from, last);
    } else {
      ReadStep(rules, content, stamp, from, last);
      ToldStep(rules, content, stamp, from, last);
      if n + 1 - from > rules.cap {
        ReadIsParse(rules, content, stamp, n + 1, last);
      } else {
        ReadIsParse(rules, content, stamp, n + 1, rules.effect(content[from..n + 1], last, stamp(from)).lastMessageTs);
      }
    }
  }
}
