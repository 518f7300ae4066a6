/** What one transcript line becomes (src/providers/claude_code.rs, `drafts_from_line`).
    JSON text is parsed by an opaque function into the fields the provider looks up. */
module Lines {
  import opened Options
  import opened Records

  datatype Identity = Inode | Head
  datatype Touches = Collected | Skipped

  /** The members of a JSON line that the provider reads; a missing or mistyped member is
      `None`, `false` or empty, as the lookups yield. `texts` are the text blocks of the
      content, `toolPaths` the paths its tool calls name with the action of each. */
  datatype Line = Line(
    lineType: Option<string>,
    isSidechain: bool,
    isMeta: bool,
    isCompactSummary: bool,
    uuid: Option<string>,
    timestamp: Option<int>,
    texts: seq<string>,
    sessionId: Option<string>,
    cwd: string,
    gitBranch: Option<string>,
    customTitle: Option<string>,
    aiTitle: Option<string>,
    prUrl: Option<string>,
    toolPaths: seq<(string, string)>
  )

  /** How a transcript is read. The function fields stand for code outside this model. */
  datatype Source = Source(
    profile: string,
    identity: Identity,
    touches: Touches,
    since: Option<int>,
    fallbackSessionId: string,
    repoOf: string -> Option<string>,
    parse: seq<Byte> -> Option<Line>,
    leadingTag: string -> Option<string>,
    hash: seq<Byte> -> string
  )

  datatype LineOutcome = LineOutcome(drafts: seq<RecordDraft>, messageTs: Option<int>)

  const NOTHING := LineOutcome([], None)

  function SessionId(src: Source, line: Line): string {
    match line.sessionId
    case Some(id) => if id == "" then src.fallbackSessionId else id
    case None => src.fallbackSessionId
  }

  function MessageKind(src: Source, line: Line, user: bool, text: string): string {
    if !user then "text"
    else if line.isCompactSummary then "compact_summary"
    else src.leadingTag(text).GetOr("prompt")
  }

  function MessageDraft(
      src: Source, line: Line, user: bool, uuid: string, ts: int, block: nat, text: string): RecordDraft {
    var payload: Payload := map[
      "session_id" := Text(SessionId(src, line)),
      "uuid" := Text(uuid),
      "block" := Number(block),
      "role" := Text(if user then "user" else "assistant"),
      "message_kind" := Text(MessageKind(src, line, user, text)),
      "text" := Text(text),
      "cwd" := Text(line.cwd),
      "profile" := Text(src.profile)
    ];
    var branch := line.gitBranch.GetOr("");
    RecordDraft(ClaudeCode, Message, ts, false,
                if branch == "" then payload else payload["git_branch" := Text(branch)],
                ClaudeMessage(SessionId(src, line), uuid, block))
  }

  function MessageDrafts(src: Source, line: Line, user: bool): LineOutcome {
    if line.isSidechain || (user && line.isMeta) then NOTHING
    else if line.uuid.None? || line.timestamp.None? || line.texts == [] then NOTHING
    else
      var uuid, ts := line.uuid.value, line.timestamp.value;
      LineOutcome(
        seq(|line.texts|, i requires 0 <= i < |line.texts| =>
            MessageDraft(src, line, user, uuid, ts, i, line.texts[i])),
        Some(ts))
  }

  /** The repositories a line's tool calls touched, each with its action, first seen first. */
  function Touched(src: Source, paths: seq<(string, string)>, seen: seq<(string, string)>): (r: seq<(string, string)>)
    requires forall i, j :: 0 <= i < j < |seen| ==> seen[i] != seen[j]
    ensures seen <= r
    ensures forall i, j :: 0 <= i < j < |r| ==> r[i] != r[j]
  {
    if paths == [] then seen
    else
      var repo := src.repoOf(paths[0].0);
      if repo.None? || (repo.value, paths[0].1) in seen then Touched(src, paths[1..], seen)
      else Touched(src, paths[1..], seen + [(repo.value, paths[0].1)])
  }

  function TouchDraft(src: Source, line: Line, uuid: string, ts: int, touch: (string, string)): RecordDraft {
    var session := SessionId(src, line);
    RecordDraft(ClaudeCode, Touch, ts, false,
                map["session_id" := Text(session), "uuid" := Text(uuid),
                    "repo" := Text(touch.0), "action" := Text(touch.1)],
                ClaudeTouch(session, uuid, touch.0, touch.1))
  }

  function TouchDrafts(src: Source, line: Line): seq<RecordDraft> {
    if line.isSidechain || line.uuid.None? || line.timestamp.None? then []
    else
      var touched := Touched(src, line.toolPaths, []);
      seq(|touched|, i requires 0 <= i < |touched| =>
        TouchDraft(src, line, line.uuid.value, line.timestamp.value, touched[i]))
  }

  /** A title or link line; without its own time it takes the carried message time, and before
      any message the file's modification time. */
  function SessionDrafts(
      src: Source, line: Line, field: string, text: Option<string>, last: Option<int>, modified: int): LineOutcome {
    if text.None? || text.value == "" then NOTHING
    else
      var ts := line.timestamp.Or(last).GetOr(modified);
      var session := SessionId(src, line);
      LineOutcome(
        [RecordDraft(ClaudeCode, Session, ts, false,
                     map["session_id" := Text(session), "field" := Text(field), "value" := Text(text.value)],
                     ClaudeSession(session, field, text.value))],
        None)
  }

  function DraftsFromLine(src: Source, line: Line, last: Option<int>, modified: int): LineOutcome {
    match line.lineType
    case None => NOTHING
    case Some(t) =>
      if t == "user" then MessageDrafts(src, line, true)
      else if t == "assistant" then
        var outcome := MessageDrafts(src, line, false);
        if src.touches.Collected? then outcome.(drafts := outcome.drafts + TouchDrafts(src, line)) else outcome
      else if t == "custom-title" then SessionDrafts(src, line, "custom_title", line.customTitle, last, modified)
      else if t == "ai-title" then SessionDrafts(src, line, "ai_title", line.aiTitle, last, modified)
      else if t == "pr-link" then SessionDrafts(src, line, "pr", line.prUrl, last, modified)
      else NOTHING
  }

  /** The outcome of raw line bytes: bytes that are not JSON yield nothing. */
  function OutcomeOf(src: Source, bytes: seq<Byte>, last: Option<int>, modified: int): LineOutcome {
    match src.parse(bytes)
    case None => NOTHING
    case Some(line) => DraftsFromLine(src, line, last, modified)
  }

  function Since(since: Option<int>, drafts: seq<RecordDraft>): (r: seq<RecordDraft>) {
    if drafts == [] then []
    else (if since.Some? && drafts[0].ts < since.value then [] else [drafts[0]]) + Since(since, drafts[1..])
  }

  /** The time of the last message draft of a line sequence, else what was carried in. */
  function LastMessage(drafts: seq<RecordDraft>, carried: Option<int>): Option<int> {
    if drafts == [] then carried
    else if drafts[|drafts| - 1].kind == Message then Some(drafts[|drafts| - 1].ts)
    else LastMessage(drafts[..|drafts| - 1], carried)
  }

  lemma {:induction false} LastMessageAppend(a: seq<RecordDraft>, b: seq<RecordDraft>, carried: Option<int>)
    ensures LastMessage(a + b, carried) == LastMessage(b, LastMessage(a, carried))
  {
    if b == [] {
      assert a + b == a;
    } else {
      var last := |a + b| - 1;
      assert (a + b)[..last] == a + b[..|b| - 1];
      LastMessageAppend(a, b[..|b| - 1], carried);
    }
  }

  lemma {:induction false} NoMessages(drafts: seq<RecordDraft>, carried: Option<int>)
    requires forall i :: 0 <= i < |drafts| ==> drafts[i].kind != Message
    ensures LastMessage(drafts, carried) == carried
  {
    if drafts != [] {
      NoMessages(drafts[..|drafts| - 1], carried);
    }
  }

  /** The time a line carries on is that of the last message drafted so far; touches and titles
      never move it. */
  lemma {:induction false} CarryIsLastMessage(src: Source, bytes: seq<Byte>, last: Option<int>, modified: int)
    ensures var outcome := OutcomeOf(src, bytes, last, modified);
            LastMessage(outcome.drafts, last) == outcome.messageTs.Or(last)
  {
    hide MessageDrafts, TouchDrafts, SessionDrafts, LastMessage;
    NoMessages([], last);
    if src.parse(bytes).Some? {
      var line := src.parse(bytes).value;
      var touches := TouchDrafts(src, line);
      TouchesAreNotMessages(src, line);
      NoMessages(touches, LastMessage(MessageDrafts(src, line, false).drafts, last));
      LastMessageAppend(MessageDrafts(src, line, false).drafts, touches, last);
      MessagesCarry(src, line, true, last);
      MessagesCarry(src, line, false, last);
      TitleIsNotMessage(src, line, "custom_title", line.customTitle, last, modified);
      TitleIsNotMessage(src, line, "ai_title", line.aiTitle, last, modified);
      TitleIsNotMessage(src, line, "pr", line.prUrl, last, modified);
    }
  }

  lemma {:induction false} MessagesCarry(src: Source, line: Line, user: bool, last: Option<int>)
    ensures var outcome := MessageDrafts(src, line, user);
            LastMessage(outcome.drafts, last) == outcome.messageTs.Or(last)
  {
  }

  lemma {:induction false} TouchesAreNotMessages(src: Source, line: Line)
    ensures forall i :: 0 <= i < |TouchDrafts(src, line)| ==> TouchDrafts(src, line)[i].kind != Message
  {
  }

  lemma {:induction false} TitleIsNotMessage(
      src: Source, line: Line, field: string, text: Option<string>, last: Option<int>, modified: int)
    ensures var outcome := SessionDrafts(src, line, field, text, last, modified);
            LastMessage(outcome.drafts, last) == last && outcome.messageTs == None
  {
    NoMessages(SessionDrafts(src, line, field, text, last, modified).drafts, last);
  }

  /** The keys of two lists of drafts, one by one the same. */
  ghost predicate SameKeys(a: seq<RecordDraft>, b: seq<RecordDraft>) {
    |a| == |b| && forall i :: 0 <= i < |a| ==> a[i].key == b[i].key
  }

  /** Neither the time a line is read under nor the time carried into it reaches its keys; with the
      same time carried, a draft has the same time in both or just the one its line is read under. */
  lemma {:induction false} LineKeysStable(
      src: Source, bytes: seq<Byte>, last: Option<int>, modified: int, last': Option<int>, modified': int)
    ensures var a, b := OutcomeOf(src, bytes, last, modified), OutcomeOf(src, bytes, last', modified');
            && SameKeys(a.drafts, b.drafts) && a.messageTs == b.messageTs
            && (last == last' ==> forall i :: 0 <= i < |a.drafts| ==>
                  a.drafts[i].ts == b.drafts[i].ts || (a.drafts[i].ts == modified && b.drafts[i].ts == modified'))
  {
    hide MessageDrafts, TouchDrafts;
  }

  lemma {:induction false} SinceAppend(since: Option<int>, a: seq<RecordDraft>, b: seq<RecordDraft>)
    ensures Since(since, a + b) == Since(since, a) + Since(since, b)
  {
    hide Since;
    SinceSplits(since, a + b);
    SinceSplits(since, a);
    if a == [] {
      assert a + b == b && [] + Since(since, b) == Since(since, b);
    } else {
      assert (a + b)[1..] == a[1..] + b;
      SinceAppend(since, a[1..], b);
      var head := if since.Some? && a[0].ts < since.value then [] else [a[0]];
      assert head + (Since(since, a[1..]) + Since(since, b)) == (head + Since(since, a[1..])) + Since(since, b);
    }
  }

  lemma SinceSplits(since: Option<int>, drafts: seq<RecordDraft>)
    ensures Since(since, []) == []
    ensures drafts != [] ==>
      Since(since, drafts)
          == (if since.Some? && drafts[0].ts < since.value then [] else [drafts[0]]) + Since(since, drafts[1..])
  {
  }

  /** Drafts of the same keys, each on the same side of `since`, are kept alike. */
  lemma {:induction false} SinceKeepsKeys(since: Option<int>, a: seq<RecordDraft>, b: seq<RecordDraft>)
    requires SameKeys(a, b)
    requires since.Some? ==> forall i :: 0 <= i < |a| ==> (a[i].ts < since.value <==> b[i].ts < since.value)
    ensures SameKeys(Since(since, a), Since(since, b))
  {
    if a != [] {
      SinceKeepsKeys(since, a[1..], b[1..]);
      assert a[0].key == b[0].key;
    }
  }

  lemma {:induction false} SinceNothing(drafts: seq<RecordDraft>)
    ensures Since(None, drafts) == drafts
  {
    if drafts != [] {
      SinceNothing(drafts[1..]);
      assert [drafts[0]] + drafts[1..] == drafts;
    }
  }

  /** A path of a tool call lies in the repository, under the action. */
  ghost predicate NamedBy(src: Source, paths: seq<(string, string)>, touch: (string, string)) {
    exists p :: p in paths && src.repoOf(p.0) == Some(touch.0) && p.1 == touch.1
  }

  /** A line's touches are exactly the repositories its tool calls name, once per action. */
  lemma {:induction false} TouchedExactly(
      src: Source, paths: seq<(string, string)>, seen: seq<(string, string)>, touch: (string, string))
    requires forall i, j :: 0 <= i < j < |seen| ==> seen[i] != seen[j]
    ensures touch in Touched(src, paths, seen) <==> touch in seen || NamedBy(src, paths, touch)
  {
    if paths != [] {
      var repo := src.repoOf(paths[0].0);
      var more := if repo.None? || (repo.value, paths[0].1) in seen then seen else seen + [(repo.value, paths[0].1)];
      TouchedExactly(src, paths[1..], more, touch);
      assert forall p :: p in paths <==> p == paths[0] || p in paths[1..];
    }
  }

  /** The session a line names, or that of its file when it names none. */
  predicate OfSession(src: Source, line: Line, session: string) {
    session == if line.sessionId.Some? && line.sessionId.value != "" then line.sessionId.value
        else src.fallbackSessionId
  }

  predicate NamesAt(src: Source, paths: seq<(string, string)>, k: nat, touch: (string, string)) {
    k < |paths| && src.repoOf(paths[k].0) == Some(touch.0) && paths[k].1 == touch.1
  }

  /** And they come in the order first met: of two, the earlier is named before the later ever is. */
  lemma {:induction false} TouchedInOrder(
      src: Source, paths: seq<(string, string)>, seen: seq<(string, string)>, i: nat, j: nat)
      returns (k: nat)
    requires forall i, j :: 0 <= i < j < |seen| ==> seen[i] != seen[j]
    requires |seen| <= i < j < |Touched(src, paths, seen)|
    ensures var touched := Touched(src, paths, seen);
            NamesAt(src, paths, k, touched[i]) && forall l :: 0 <= l <= k ==> !NamesAt(src, paths, l, touched[j])
  {
    var touched, repo := Touched(src, paths, seen), src.repoOf(paths[0].0);
    var more := if repo.None? || (repo.value, paths[0].1) in seen then seen else seen + [(repo.value, paths[0].1)];
    assert touched == Touched(src, paths[1..], more) && forall n :: 0 <= n < |more| ==> touched[n] == more[n];
    if repo.Some? {
      var head := (repo.value, paths[0].1);
      var at :| 0 <= at < |more| && more[at] == head && (at < |seen| || at == |seen| == |more| - 1);
      assert touched[at] == head && at <= i < j;
    }
    assert !NamesAt(src, paths, 0, touched[j]);
    if i < |more| {
      return 0;
    }
    var later := TouchedInOrder(src, paths[1..], more, i, j);
    assert forall l :: 0 <= l < |paths| - 1 ==> paths[1..][l] == paths[l + 1];
    forall l | 0 <= l <= later + 1
      ensures !NamesAt(src, paths, l, touched[j])
    {
      if l > 0 {
        assert !NamesAt(src, paths[1..], l - 1, touched[j]);
      }
    }
    return later + 1;
  }

  /** Touches ship exactly from a line outside sidechains that has uuid, time and a tool call naming
      a repository: one for each repository and action, under the line's uuid and time. */
  lemma {:induction false} OneDraftPerTouch(src: Source, line: Line, touch: (string, string))
    ensures var drafts := TouchDrafts(src, line);
            SomeTouch(src, line, drafts, touch) <==>
            !line.isSidechain && line.uuid.Some? && line.timestamp.Some? && NamedBy(src, line.toolPaths, touch)
  {
    hide Touched;
    if !line.isSidechain && line.uuid.Some? && line.timestamp.Some? {
      var touched, drafts := Touched(src, line.toolPaths, []), TouchDrafts(src, line);
      TouchedExactly(src, line.toolPaths, [], touch);
      if touch in touched {
        var i :| 0 <= i < |touched| && touched[i] == touch;
        assert IsTouch(src, line, drafts[i], touch);
      }
    }
  }

  /** The draft is that of the line's touch. */
  predicate IsTouch(src: Source, line: Line, d: RecordDraft, touch: (string, string)) {
    && line.uuid.Some? && line.timestamp == Some(d.ts) && d.provider == ClaudeCode && d.kind == Touch && !d.degraded
    && d.key.ClaudeTouch? && d.key == ClaudeTouch(d.key.sessionId, line.uuid.value, touch.0, touch.1)
        && OfSession(src, line, d.key.sessionId)
    && Says(d, "session_id", d.key.sessionId) && Says(d, "uuid", d.key.uuid)
    && Says(d, "repo", touch.0) && Says(d, "action", touch.1)
  }

  /** Of two touches shipped from a line the earlier is named before the later ever is. */
  lemma {:induction false} TouchesInOrder(src: Source, line: Line, i: nat, j: nat) returns (k: nat)
    requires i < j < |TouchDrafts(src, line)|
    ensures var drafts := TouchDrafts(src, line);
            && drafts[i].key.ClaudeTouch? && drafts[j].key.ClaudeTouch?
            && NamesAt(src, line.toolPaths, k, (drafts[i].key.repo, drafts[i].key.action))
            && forall l :: 0 <= l <= k ==> !NamesAt(src, line.toolPaths, l, (drafts[j].key.repo, drafts[j].key.action))
  {
    hide Touched, NamesAt;
    k := TouchedInOrder(src, line.toolPaths, [], i, j);
  }

  /** A payload text under a name. */
  predicate Says(d: RecordDraft, name: string, text: string) { name in d.payload && d.payload[name] == Text(text) }

  /** The draft is that of the line's block `i`. */
  predicate IsBlock(src: Source, line: Line, user: bool, d: RecordDraft, i: nat)
    requires line.uuid.Some? && line.timestamp.Some? && i < |line.texts|
  {
    && d.provider == ClaudeCode && d.kind == Message && !d.degraded && d.ts == line.timestamp.value
    && d.key.ClaudeMessage? && d.key == ClaudeMessage(d.key.sessionId, line.uuid.value, i)
    && OfSession(src, line, d.key.sessionId) && SaysWho(user, d, i) && SaysWhat(src, line, user, d, i)
  }

  /** Which message it is, and whose. */
  predicate SaysWho(user: bool, d: RecordDraft, i: nat)
    requires d.key.ClaudeMessage?
  {
    && Says(d, "session_id", d.key.sessionId) && Says(d, "uuid", d.key.uuid)
    && "block" in d.payload && d.payload["block"] == Number(i)
    && Says(d, "role", if user then "user" else "assistant")
  }

  /** What was said, of what kind and where; the branch is left out when there is none. */
  predicate SaysWhat(src: Source, line: Line, user: bool, d: RecordDraft, i: nat)
    requires i < |line.texts|
  {
    && Says(d, "text", line.texts[i])
    && Says(d, "message_kind",
            if !user then "text" else if line.isCompactSummary then "compact_summary"
            else match src.leadingTag(line.texts[i]) case Some(tag) => tag case None => "prompt")
    && Says(d, "cwd", line.cwd) && Says(d, "profile", src.profile)
    && ("git_branch" in d.payload <==> line.gitBranch.Some? && line.gitBranch.value != "")
    && ("git_branch" in d.payload ==> Says(d, "git_branch", line.gitBranch.value))
  }

  /** A conversation line that ships does so once per text block, unmodified and in order, under its
      own uuid and time and where it was said; nothing but a line with all of these ships. */
  lemma {:induction false} OneDraftPerBlock(src: Source, line: Line, user: bool)
    ensures var outcome := MessageDrafts(src, line, user);
            && (outcome.messageTs.None? <==> outcome.drafts == [])
            && (outcome.messageTs.Some? <==>
                  !line.isSidechain && !(user && line.isMeta) && line.uuid.Some? && line.timestamp.Some?
                      && line.texts != [])
            && (outcome.messageTs.Some? ==>
                  && outcome.messageTs == line.timestamp && |outcome.drafts| == |line.texts|
                  && forall i :: 0 <= i < |line.texts| ==> IsBlock(src, line, user, outcome.drafts[i], i))
  {
    hide IsBlock, MessageDraft;
    var outcome := MessageDrafts(src, line, user);
    if outcome.messageTs.Some? {
      forall i | 0 <= i < |line.texts|
        ensures IsBlock(src, line, user, outcome.drafts[i], i)
      {
        DraftIsBlock(src, line, user, i);
      }
    }
  }

  lemma {:induction false} DraftIsBlock(src: Source, line: Line, user: bool, i: nat)
    requires line.uuid.Some? && line.timestamp.Some? && i < |line.texts|
    ensures IsBlock(src, line, user,
        MessageDraft(src, line, user, line.uuid.value, line.timestamp.value, i, line.texts[i]), i)
  {
    hide OfSession, MessageKind, SessionId, SaysWho, SaysWhat;
    SessionNamed(src, line);
    DraftSaysWho(src, line, user, i);
    DraftSaysWhat(src, line, user, i);
  }

  lemma {:induction false} DraftSaysWho(src: Source, line: Line, user: bool, i: nat)
    requires line.uuid.Some? && line.timestamp.Some? && i < |line.texts|
    ensures SaysWho(user, MessageDraft(src, line, user, line.uuid.value, line.timestamp.value, i, line.texts[i]), i)
  {
    hide MessageKind, SessionId;
  }

  lemma {:induction false} DraftSaysWhat(src: Source, line: Line, user: bool, i: nat)
    requires line.uuid.Some? && line.timestamp.Some? && i < |line.texts|
    ensures SaysWhat(src, line, user,
                     MessageDraft(src, line, user, line.uuid.value, line.timestamp.value, i, line.texts[i]), i)
  {
    hide MessageKind, SessionId;
    KindNamed(src, line, user, line.texts[i]);
  }

  lemma SessionNamed(src: Source, line: Line)
    ensures OfSession(src, line, SessionId(src, line))
  {
  }

  lemma KindNamed(src: Source, line: Line, user: bool, text: string)
    ensures MessageKind(src, line, user, text)
         == if !user then "text" else if line.isCompactSummary then "compact_summary"
            else match src.leadingTag(text) case Some(tag) => tag case None => "prompt"
  {
  }

  // ---- What each type of line yields ----

  /** A title or link, under its own time, else the time carried, else that of the file. */
  ghost predicate IsTitle(
      src: Source, line: Line, d: RecordDraft, field: string, text: string, last: Option<int>, modified: int) {
    && d.provider == ClaudeCode && d.kind == Session && !d.degraded
    && d.ts == (match line.timestamp case Some(ts) => ts case None => match last case Some(ts) => ts case None =>
        modified)
    && d.key.ClaudeSession? && d.key == ClaudeSession(d.key.sessionId, field, text)
        && OfSession(src, line, d.key.sessionId)
    && Says(d, "session_id", d.key.sessionId) && Says(d, "field", field) && Says(d, "value", text)
  }

  /** One title, or nothing without a text. */
  ghost predicate TitleFrom(
      src: Source, line: Line, outcome: LineOutcome, field: string, text: Option<string>, last: Option<int>,
      modified: int)
  {
    && outcome.messageTs == None
    && (if text.None? || text.value == "" then outcome.drafts == []
        else |outcome.drafts| == 1 && IsTitle(src, line, outcome.drafts[0], field, text.value, last, modified))
  }

  /** One message for each text block of a line that ships, and the line's time to carry on. */
  ghost predicate MessagesFrom(src: Source, line: Line, user: bool, drafts: seq<RecordDraft>, messageTs: Option<int>) {
    if line.isSidechain || (user && line.isMeta) || line.uuid.None? || line.timestamp.None? || line.texts == [] then
      drafts == [] && messageTs == None
    else
      && messageTs == line.timestamp && |drafts| == |line.texts|
      && forall i :: 0 <= i < |line.texts| ==> IsBlock(src, line, user, drafts[i], i)
  }

  /** One touch for each repository and action that a line outside sidechains names. */
  ghost predicate TouchesFrom(src: Source, line: Line, drafts: seq<RecordDraft>) {
    && (forall i :: 0 <= i < |drafts| ==> drafts[i].kind == Touch)
    && forall touch: (string, string) :: SomeTouch(src, line, drafts, touch) <==>
         !line.isSidechain && line.uuid.Some? && line.timestamp.Some? && NamedBy(src, line.toolPaths, touch)
  }

  ghost predicate SomeTouch(src: Source, line: Line, drafts: seq<RecordDraft>, touch: (string, string)) {
    exists i :: 0 <= i < |drafts| && IsTouch(src, line, drafts[i], touch)
  }

  /** Which of the five types of line yields what; every other line yields nothing. */
  lemma {:induction false} LineYields(src: Source, line: Line, last: Option<int>, modified: int)
    ensures var outcome := DraftsFromLine(src, line, last, modified);
            if line.lineType == Some("user") then MessagesFrom(src, line, true, outcome.drafts, outcome.messageTs)
            else if line.lineType == Some("assistant") then
              exists k :: 0 <= k <= |outcome.drafts|
                && MessagesFrom(src, line, false, outcome.drafts[..k], outcome.messageTs)
                && (if src.touches.Collected? then TouchesFrom(src, line, outcome.drafts[k..])
                    else outcome.drafts[k..] == [])
            else if line.lineType == Some("custom-title") then
              TitleFrom(src, line, outcome, "custom_title", line.customTitle, last, modified)
            else if line.lineType == Some("ai-title") then
              TitleFrom(src, line, outcome, "ai_title", line.aiTitle, last, modified)
            else if line.lineType == Some("pr-link") then
              TitleFrom(src, line, outcome, "pr", line.prUrl, last, modified)
            else outcome.drafts == [] && outcome.messageTs == None
  {
    hide MessageDrafts, TouchDrafts, SessionDrafts, MessagesFrom, TouchesFrom, TitleFrom;
    MessagesYield(src, line, true);
    MessagesYield(src, line, false);
    TouchesYield(src, line);
    TitleYields(src, line, "custom_title", line.customTitle, last, modified);
    TitleYields(src, line, "ai_title", line.aiTitle, last, modified);
    TitleYields(src, line, "pr", line.prUrl, last, modified);
    var outcome, messages := DraftsFromLine(src, line, last, modified), MessageDrafts(src, line, false).drafts;
    if line.lineType == Some("assistant") {
      var k := |messages|;
      assert outcome.drafts[..k] == messages;
      assert outcome.drafts[k..] == if src.touches.Collected? then TouchDrafts(src, line) else [];
    }
  }

  lemma {:induction false} MessagesYield(src: Source, line: Line, user: bool)
    ensures var outcome := MessageDrafts(src, line, user);
            MessagesFrom(src, line, user, outcome.drafts, outcome.messageTs)
  {
    hide IsBlock;
    OneDraftPerBlock(src, line, user);
  }

  lemma {:induction false} TouchesYield(src: Source, line: Line)
    ensures TouchesFrom(src, line, TouchDrafts(src, line))
  {
    hide IsTouch, TouchDrafts, NamedBy, SomeTouch;
    var drafts := TouchDrafts(src, line);
    TouchKinds(src, line);
    forall touch: (string, string)
      ensures SomeTouch(src, line, drafts, touch) <==>
              !line.isSidechain && line.uuid.Some? && line.timestamp.Some? && NamedBy(src, line.toolPaths, touch)
    {
      OneDraftPerTouch(src, line, touch);
    }
  }

  lemma TouchKinds(src: Source, line: Line)
    ensures forall i :: 0 <= i < |TouchDrafts(src, line)| ==> TouchDrafts(src, line)[i].kind == Touch
  {
  }

  lemma {:induction false} TitleYields(
      src: Source, line: Line, field: string, text: Option<string>, last: Option<int>, modified: int)
    ensures TitleFrom(src, line, SessionDrafts(src, line, field, text, last, modified), field, text, last, modified)
  {
  }

  /** The draft is the title of its line. */
  ghost predicate TitleOf(src: Source, line: Line, d: RecordDraft, last: Option<int>, modified: int) {
    match line.lineType
    case None => false
    case Some(t) =>
      if t == "custom-title" then
        line.customTitle.Some? && IsTitle(src, line, d, "custom_title", line.customTitle.value, last, modified)
      else if t == "ai-title" then
          line.aiTitle.Some? && IsTitle(src, line, d, "ai_title", line.aiTitle.value, last, modified)
      else t == "pr-link" && line.prUrl.Some? && IsTitle(src, line, d, "pr", line.prUrl.value, last, modified)
  }

  lemma {:induction false} TitleAlone(src: Source, bytes: seq<Byte>, last: Option<int>, modified: int, i: nat)
    requires i < |OutcomeOf(src, bytes, last, modified).drafts|
    requires OutcomeOf(src, bytes, last, modified).drafts[i].kind == Session
    ensures i == 0 && src.parse(bytes).Some?
        && TitleOf(src, src.parse(bytes).value, OutcomeOf(src, bytes, last, modified).drafts[0], last, modified)
  {
    hide MessageDrafts, TouchDrafts, SessionDrafts, IsTitle;
    var line := src.parse(bytes).value;
    MessageKinds(src, line, true);
    MessageKinds(src, line, false);
    TouchKinds(src, line);
    TitleYields(src, line, "custom_title", line.customTitle, last, modified);
    TitleYields(src, line, "ai_title", line.aiTitle, last, modified);
    TitleYields(src, line, "pr", line.prUrl, last, modified);
  }

  lemma MessageKinds(src: Source, line: Line, user: bool)
    ensures var drafts := MessageDrafts(src, line, user).drafts;
            forall i :: 0 <= i < |drafts| ==> drafts[i].kind == Message
  {
  }

  /** The last message's time: that of a message with none after it, and what was carried if there is
      no message. */
  lemma {:induction false} LastMessageExactly(drafts: seq<RecordDraft>, carried: Option<int>)
    ensures (forall i :: 0 <= i < |drafts| ==> drafts[i].kind != Message) ==> LastMessage(drafts, carried) == carried
    ensures forall i :: (0 <= i < |drafts| && drafts[i].kind == Message
                         && forall j :: i < j < |drafts| ==> drafts[j].kind != Message) ==>
              LastMessage(drafts, carried) == Some(drafts[i].ts)
  {
    if drafts != [] {
      var front := drafts[..|drafts| - 1];
      LastMessageExactly(front, carried);
      assert forall i :: 0 <= i < |front| ==> front[i] == drafts[i];
    }
  }

  /** What `since` keeps: the drafts not before it, and no others. */
  lemma {:induction false} SinceExactly(since: Option<int>, drafts: seq<RecordDraft>, d: RecordDraft)
    ensures d in Since(since, drafts) <==> d in drafts && (since.None? || d.ts >= since.value)
  {
    if drafts != [] {
      SinceExactly(since, drafts[1..], d);
      assert d in drafts <==> d == drafts[0] || d in drafts[1..];
    }
  }

  // ---- How much text a line carries ----

  function LengthOf(texts: seq<string>): nat {
    if texts == [] then 0 else |texts[0]| + LengthOf(texts[1..])
  }

  /** Messages count with the whole of their text, touches and titles not at all. */
  lemma {:induction false} TextCounted(src: Source, line: Line, user: bool)
    ensures TextBytes(MessageDrafts(src, line, user).drafts)
         == if MessageDrafts(src, line, user).messageTs.Some? then LengthOf(line.texts) else 0
    ensures TextBytes(TouchDrafts(src, line)) == 0
  {
    hide MessageDrafts, TouchDrafts, IsBlock;
    OneDraftPerBlock(src, line, user);
    var drafts := MessageDrafts(src, line, user).drafts;
    if MessageDrafts(src, line, user).messageTs.Some? {
      forall i | 0 <= i < |drafts|
        ensures TextLength(drafts[i]) == |line.texts[i]|
      {
        BlockLength(src, line, user, drafts[i], i);
      }
      LengthsAddUp(drafts, line.texts);
    }
    TouchLengths(src, line);
    NoText(TouchDrafts(src, line));
  }

  lemma BlockLength(src: Source, line: Line, user: bool, d: RecordDraft, i: nat)
    requires line.uuid.Some? && line.timestamp.Some? && i < |line.texts| && IsBlock(src, line, user, d, i)
    ensures TextLength(d) == |line.texts[i]|
  {
  }

  lemma TouchLengths(src: Source, line: Line)
    ensures forall i :: 0 <= i < |TouchDrafts(src, line)| ==> TextLength(TouchDrafts(src, line)[i]) == 0
  {
  }

  lemma {:induction false} NoText(drafts: seq<RecordDraft>)
    requires forall i :: 0 <= i < |drafts| ==> TextLength(drafts[i]) == 0
    ensures TextBytes(drafts) == 0
  {
    if drafts != [] {
      NoText(drafts[1..]);
    }
  }

  lemma {:induction false} LengthsAddUp(drafts: seq<RecordDraft>, texts: seq<string>)
    requires |drafts| == |texts| && forall i :: 0 <= i < |texts| ==> TextLength(drafts[i]) == |texts[i]|
    ensures TextBytes(drafts) == LengthOf(texts)
  {
    if drafts != [] {
      LengthsAddUp(drafts[1..], texts[1..]);
    }
  }
}
