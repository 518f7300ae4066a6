/** The browser history poller (src/providers/browser_history.rs): pages over a changing table,
    re-reading a window below its cursor and shipping only rows that changed. */
module History {
  import opened Options
  import opened Records
  import Keys

  const WEBKIT_EPOCH_OFFSET_MILLIS := 11_644_473_600_000

  /** A row of `visits`, with the row of `urls` it joins, if there is one. */
  datatype Visit = Visit(id: int, visitTime: int, transition: int, duration: int, joined: Option<Page>)
  datatype Page = Page(url: Option<string>, title: Option<string>)

  datatype VisitRow = VisitRow(id: int, visitTime: int, transition: int, duration: int, url: string,
      title: Option<string>)

  /** `shipped` holds what was last shipped of each visit in the window. */
  datatype HistoryState = HistoryState(cursor: int, generation: nat, shipped: map<int, string>)

  datatype PollOutcome = PollOutcome(records: seq<RecordDraft>, state: HistoryState)

  function Max(a: int, b: int): int { if a < b then b else a }

  /** The table in id order, its primary key. */
  ghost predicate ValidTable(visits: seq<Visit>) {
    forall i, j :: 0 <= i < j < |visits| ==> visits[i].id < visits[j].id
  }

  ghost predicate Ascending(rows: seq<VisitRow>) {
    forall i, j :: 0 <= i < j < |rows| ==> rows[i].id < rows[j].id
  }

  function HighestVisitId(visits: seq<Visit>): int {
    if visits == [] then 0 else visits[|visits| - 1].id
  }

  function RowOf(v: Visit): VisitRow
    requires v.joined.Some?
  {
    VisitRow(v.id, v.visitTime, v.transition, v.duration, v.joined.value.url.GetOr(""), v.joined.value.title)
  }

  /** The joined rows past an id, in id order. */
  function RowsAfter(visits: seq<Visit>, from: int): seq<VisitRow> {
    if visits == [] then []
    else
      (if visits[0].id > from && visits[0].joined.Some? then [RowOf(visits[0])] else [])
      + RowsAfter(visits[1..], from)
  }

  /** What a change to a row is seen by; the text that is hashed. */
  function Digest(row: VisitRow): string {
    Keys.Join([row.title.GetOr(""), Keys.Dec(row.transition), Keys.Dec(row.duration)])
  }

  function TruncatedThousandth(n: int): int {
    if n < 0 then -(-n / 1000) else n / 1000
  }

  function VisitRecord(profile: string, generation: nat, row: VisitRow): RecordDraft {
    var payload: Payload := map[
      "url" := Text(row.url),
      "profile" := Text(profile),
      "transition" := Number(row.transition),
      "visit_id" := Number(row.id),
      "duration_ms" := Number(TruncatedThousandth(row.duration))
    ];
    RecordDraft(BrowserHistory, Kind.Visit, TruncatedThousandth(row.visitTime) - WEBKIT_EPOCH_OFFSET_MILLIS, false,
                if row.title.GetOr("") == "" then payload else payload["title" := Text(row.title.value)],
                BrowserVisit(profile, generation, row.id))
  }

  function VisitRecords(profile: string, generation: nat, rows: seq<VisitRow>): seq<RecordDraft> {
    seq(|rows|, i requires 0 <= i < |rows| => VisitRecord(profile, generation, rows[i]))
  }

  /** The state a poll works from: fresh, of a new generation when the highest id fell below the
      cursor, or the stored one. */
  function Opened(state: Option<HistoryState>, highest: int): HistoryState {
    match state
    case None => HistoryState(Max(highest, 0), 1, map[])
    case Some(s) => if highest < s.cursor then HistoryState(Max(highest, 0), s.generation + 1, map[]) else s
  }

  datatype Absorbed = Absorbed(emitted: seq<VisitRow>, shipped: map<int, string>)

  predicate Changed(shipped: map<int, string>, row: VisitRow) {
    row.url != "" && !(row.id in shipped && shipped[row.id] == Digest(row))
  }

  /** Takes rows one by one, emitting and remembering those that changed. */
  function Absorb(rows: seq<VisitRow>, shipped: map<int, string>): Absorbed
    decreases |rows|
  {
    if rows == [] then Absorbed([], shipped)
    else if !Changed(shipped, rows[0]) then Absorb(rows[1..], shipped)
    else
      var rest := Absorb(rows[1..], shipped[rows[0].id := Digest(rows[0])]);
      Absorbed([rows[0]] + rest.emitted, rest.shipped)
  }

  function LastId(rows: seq<VisitRow>, from: int): int {
    if rows == [] then from else rows[|rows| - 1].id
  }

  /** The window a poll reads: every joined row past this id. */
  function From(state: HistoryState, window: nat): int { Max(state.cursor - window, 0) }

  function Pruned(shipped: map<int, string>, floor: int): map<int, string> {
    map id | id in shipped && id > floor :: shipped[id]
  }

  function AbsorbedBy(visits: seq<Visit>, window: nat, state: Option<HistoryState>): Absorbed {
    var base := Opened(state, HighestVisitId(visits));
    Absorb(RowsAfter(visits, From(base, window)), base.shipped)
  }

  /** The state after a poll that reads the whole window at once. */
  function Advanced(visits: seq<Visit>, window: nat, state: Option<HistoryState>): HistoryState {
    var base := Opened(state, HighestVisitId(visits));
    var from := From(base, window);
    var cursor := Max(base.cursor, LastId(RowsAfter(visits, from), from));
    HistoryState(cursor, base.generation, Pruned(AbsorbedBy(visits, window, state).shipped, cursor - window))
  }

  // ---- Paging ----

  method ReadPage(visits: seq<Visit>, from: int, limit: nat) returns (rows: seq<VisitRow>)
    ensures var all := RowsAfter(visits, from);
            rows == all[..if limit < |all| then limit else |all|]
  {
    rows := [];
    for i := 0 to |visits|
      invariant |rows| <= limit && rows + RowsAfter(visits[i..], from) == RowsAfter(visits, from)
    {
      assert visits[i..][1..] == visits[i + 1..];
      if |rows| == limit {
        return;
      }
      if visits[i].id > from && visits[i].joined.Some? {
        assert rows + ([RowOf(visits[i])] + RowsAfter(visits[i + 1..], from))
            == (rows + [RowOf(visits[i])]) + RowsAfter(visits[i + 1..], from);
        rows := rows + [RowOf(visits[i])];
      } else {
        assert [] + RowsAfter(visits[i + 1..], from) == RowsAfter(visits[i + 1..], from);
      }
    }
    assert rows + [] == rows;
  }

  /** Some visit past an id joins to the row. */
  ghost predicate Joins(visits: seq<Visit>, from: int, r: VisitRow) {
    exists v :: v in visits && v.id > from && v.joined.Some? && r == RowOf(v)
  }

  lemma {:induction false} RowsJoin(visits: seq<Visit>, from: int, r: VisitRow)
    ensures r in RowsAfter(visits, from) <==> Joins(visits, from, r)
  {
    if visits != [] {
      RowsJoin(visits[1..], from, r);
      assert forall v :: v in visits <==> v == visits[0] || v in visits[1..];
    }
  }

  lemma {:induction false} RowsAscend(visits: seq<Visit>, from: int)
    requires ValidTable(visits)
    ensures Ascending(RowsAfter(visits, from))
    ensures forall r :: r in RowsAfter(visits, from) ==> r.id > from
  {
    if visits != [] {
      var rest := RowsAfter(visits[1..], from);
      RowsAscend(visits[1..], from);
      forall i | 0 <= i < |rest|
        ensures visits[0].id < rest[i].id
      {
        assert rest[i] in rest;
        RowsJoin(visits[1..], from, rest[i]);
      }
    }
  }

  /** The rows of a list past an id. */
  function Past(rows: seq<VisitRow>, id: int): seq<VisitRow> {
    if rows == [] then [] else (if rows[0].id > id then [rows[0]] else []) + Past(rows[1..], id)
  }

  lemma {:induction false} RowsAfterIsPast(visits: seq<Visit>, from: int, id: int)
    requires from <= id
    ensures RowsAfter(visits, id) == Past(RowsAfter(visits, from), id)
  {
    if visits != [] {
      RowsAfterIsPast(visits[1..], from, id);
      var rest := RowsAfter(visits[1..], from);
      if visits[0].id > from && visits[0].joined.Some? {
        assert ([RowOf(visits[0])] + rest)[1..] == rest;
      } else {
        assert [] + rest == rest && [] + RowsAfter(visits[1..], id) == RowsAfter(visits[1..], id);
      }
    }
  }

  lemma {:induction false} PastAll(rows: seq<VisitRow>, id: int)
    requires forall r :: r in rows ==> r.id > id
    ensures Past(rows, id) == rows
  {
    if rows != [] {
      PastAll(rows[1..], id);
      assert rows[0] in rows;
    }
  }

  lemma {:induction false} PastSuffix(rows: seq<VisitRow>, k: nat, id: int)
    requires k <= |rows|
    requires (forall r :: r in rows[..k] ==> r.id <= id) && (forall r :: r in rows[k..] ==> r.id > id)
    ensures Past(rows, id) == rows[k..]
  {
    if k == 0 {
      assert rows[0..] == rows;
      PastAll(rows, id);
    } else {
      assert rows[0] in rows[..k] && rows[..k][1..] == rows[1..][..k - 1] && rows[1..][k - 1..] == rows[k..];
      PastSuffix(rows[1..], k - 1, id);
    }
  }

  /** A page read from the last row taken goes on with the next one. */
  lemma {:induction false} PageResumes(visits: seq<Visit>, from: int, k: nat)
    requires ValidTable(visits) && k <= |RowsAfter(visits, from)|
    ensures var all := RowsAfter(visits, from);
            RowsAfter(visits, LastId(all[..k], from)) == all[k..]
  {
    var all := RowsAfter(visits, from);
    RowsAscend(visits, from);
    assert forall i :: 0 <= i < |all| ==> all[i] in all;
    var id := LastId(all[..k], from);
    hide RowsAfter;
    RowsAfterIsPast(visits, from, id);
    PastSuffix(all, k, id);
  }

  /** Takes the rows of one page in order. */
  method TakePage(rows: seq<VisitRow>, profile: string, generation: nat, before: map<int, string>)
      returns (records: seq<RecordDraft>, shipped: map<int, string>)
    ensures var absorbed := Absorb(rows, before);
            records == VisitRecords(profile, generation, absorbed.emitted) && shipped == absorbed.shipped
  {
    hide Digest, VisitRecord;
    ghost var whole := Absorb(rows, before);
    ghost var emitted: seq<VisitRow> := [];
    records, shipped := [], before;
    assert [] + whole.emitted == whole.emitted;
    for i := 0 to |rows|
      invariant records == VisitRecords(profile, generation, emitted)
      invariant whole == Absorbed(emitted + Absorb(rows[i..], shipped).emitted, Absorb(rows[i..], shipped).shipped)
    {
      var row := rows[i];
      assert rows[i..][1..] == rows[i + 1..];
      if row.url == "" {
        continue;
      }
      var digest := Digest(row);
      if row.id in shipped && shipped[row.id] == digest {
        continue;
      }
      ghost var rest := Absorb(rows[i + 1..], shipped[row.id := digest]);
      assert emitted + ([row] + rest.emitted) == (emitted + [row]) + rest.emitted;
      shipped := shipped[row.id := digest];
      records := records + [VisitRecord(profile, generation, row)];
      emitted := emitted + [row];
    }
    assert emitted + [] == emitted;
  }

  lemma {:induction false} AbsorbInPages(rows: seq<VisitRow>, k: nat, shipped: map<int, string>)
    requires k <= |rows|
    ensures var first := Absorb(rows[..k], shipped);
            var rest := Absorb(rows[k..], first.shipped);
            Absorb(rows, shipped) == Absorbed(first.emitted + rest.emitted, rest.shipped)
    decreases k
  {
    hide Absorb, Digest, Changed;
    AbsorbUnfolds(rows, shipped);
    AbsorbUnfolds(rows[..k], shipped);
    if k == 0 {
      assert rows[0..] == rows;
      var rest := Absorb(rows, shipped);
      assert [] + rest.emitted == rest.emitted;
    } else {
      var row, head := rows[0], rows[..k];
      assert head[1..] == rows[1..][..k - 1] && rows[1..][k - 1..] == rows[k..];
      if Changed(shipped, row) {
        var more := shipped[row.id := Digest(row)];
        AbsorbInPages(rows[1..], k - 1, more);
        var first := Absorb(head[1..], more);
        var rest := Absorb(rows[k..], first.shipped);
        assert [row] + (first.emitted + rest.emitted) == ([row] + first.emitted) + rest.emitted;
      } else {
        AbsorbInPages(rows[1..], k - 1, shipped);
      }
    }
  }

  lemma AbsorbUnfolds(rows: seq<VisitRow>, shipped: map<int, string>)
    ensures Absorb([], shipped) == Absorbed([], shipped)
    ensures rows != [] ==>
      Absorb(rows, shipped) ==
      if !Changed(shipped, rows[0]) then Absorb(rows[1..], shipped)
      else var rest := Absorb(rows[1..], shipped[rows[0].id := Digest(rows[0])]);
           Absorbed([rows[0]] + rest.emitted, rest.shipped)
  {
    hide Digest, Changed;
  }

  lemma {:induction false} RecordsAppend(profile: string, generation: nat, a: seq<VisitRow>, b: seq<VisitRow>)
    ensures VisitRecords(profile, generation, a + b)
        == VisitRecords(profile, generation, a) + VisitRecords(profile, generation, b)
  {
  }

  /** One poll, page by page. The outcome does not depend on the page size. */
  method Collect(
      visits: seq<Visit>, profile: string, window: nat, state: Option<HistoryState>, page: nat) returns (r: PollOutcome)
    requires ValidTable(visits) && page >= 1
    ensures r.state == Advanced(visits, window, state)
    ensures r.records == VisitRecords(profile, r.state.generation, AbsorbedBy(visits, window, state).emitted)
  {
    hide RowsAfter, Absorb, Digest, VisitRecord, VisitRecords, Pruned, HighestVisitId, Opened, ValidTable;
    var base := Opened(state, HighestVisitId(visits));
    var from := From(base, window);
    var position, records, shipped := from, [], base.shipped;
    NothingEmitted(profile, base.generation, shipped);
    ghost var all, k, emitted := RowsAfter(visits, from), 0, [];
    ghost var whole := Absorb(all, base.shipped);
    assert all[0..] == all && all[..0] == [] && [] + whole.emitted == whole.emitted;
    while true
      invariant 0 <= k <= |all| && position == LastId(all[..k], from)
      invariant records == VisitRecords(profile, base.generation, emitted)
      invariant whole == Absorbed(emitted + Absorb(all[k..], shipped).emitted, Absorb(all[k..], shipped).shipped)
      decreases |all| - k
    {
      PageResumes(visits, from, k);
      var rows := ReadPage(visits, position, page);
      var taken, remembered := TakePage(rows, profile, base.generation, shipped);
      ghost var n := |rows|;
      assert rows == all[k..][..n] && all[k..][n..] == all[k + n..];
      AbsorbInPages(all[k..], n, shipped);
      ghost var first := Absorb(rows, shipped);
      ghost var rest := Absorb(all[k + n..], first.shipped);
      assert emitted + (first.emitted + rest.emitted) == (emitted + first.emitted) + rest.emitted;
      RecordsAppend(profile, base.generation, emitted, first.emitted);
      assert n > 0 ==> all[..k + n][k + n - 1] == rows[n - 1];
      position := LastId(rows, position);
      records, shipped, k, emitted := records + taken, remembered, k + n, emitted + first.emitted;
      if |rows| < page {
        break;
      }
    }
    assert all[k..] == [] && all[..k] == all;
    NothingEmitted(profile, base.generation, shipped);
    assert emitted + [] == emitted;
    var cursor := Max(base.cursor, position);
    r := PollOutcome(records, HistoryState(cursor, base.generation, Pruned(shipped, cursor - window)));
  }

  lemma {:induction false} NothingEmitted(profile: string, generation: nat, shipped: map<int, string>)
    ensures Absorb([], shipped) == Absorbed([], shipped) && VisitRecords(profile, generation, []) == []
  {
  }

  // ---- What is emitted ----

  /** The digest tells apart any two values of title, transition or duration, even for titles
      that hold the separator; a missing title counts as an empty one. */
  lemma {:induction false} DigestExactly(a: VisitRow, b: VisitRow)
    ensures Digest(a) == Digest(b) <==>
            a.title.GetOr("") == b.title.GetOr("") && a.transition == b.transition && a.duration == b.duration
  {
    hide Keys.Join, Keys.Dec;
    var s := [Keys.SEPARATOR];
    var (t, n, d) := (a.title.GetOr(""), Keys.Dec(a.transition), Keys.Dec(a.duration));
    var (t', n', d') := (b.title.GetOr(""), Keys.Dec(b.transition), Keys.Dec(b.duration));
    Keys.JoinThree(t, n, d);
    Keys.JoinThree(t', n', d');
    if Digest(a) == Digest(b) {
      Keys.DecIsPlain(a.transition);
      Keys.DecIsPlain(a.duration);
      Keys.DecIsPlain(b.transition);
      Keys.DecIsPlain(b.duration);
      assert t + s + (n + s + d) == (t + s + n) + s + d && t' + s + (n' + s + d') == (t' + s + n') + s + d';
      Keys.CutLast(Keys.SEPARATOR, t + s + n, d, t' + s + n', d');
      Keys.CutLast(Keys.SEPARATOR, t, n, t', n');
      Keys.DecInjective(a.transition, b.transition);
      Keys.DecInjective(a.duration, b.duration);
    }
  }

  /** Exactly the changed rows are emitted, and afterwards every row with a url is remembered as
      it is now; what other ids hold does not change. */
  lemma {:induction false} AbsorbExactly(rows: seq<VisitRow>, shipped: map<int, string>)
    requires Ascending(rows)
    ensures var absorbed := Absorb(rows, shipped);
            && (forall r :: r in absorbed.emitted <==> r in rows && Changed(shipped, r))
            && (forall r :: r in rows && r.url != "" ==>
                r.id in absorbed.shipped && absorbed.shipped[r.id] == Digest(r))
            && (forall id :: (forall r :: r in rows && r.url != "" ==> r.id != id) ==>
                  (id in absorbed.shipped <==> id in shipped)
                      && (id in shipped ==> absorbed.shipped[id] == shipped[id]))
    decreases |rows|
  {
    hide Digest;
    if rows != [] {
      var row := rows[0];
      var next := if Changed(shipped, row) then shipped[row.id := Digest(row)] else shipped;
      AbsorbExactly(rows[1..], next);
      assert forall r :: r in rows[1..] ==> r.id != row.id;
    }
  }

  // ---- The window, told from the table ----

  /** The row is that of the visit and the page it joins; a page without a url has an empty one. */
  ghost predicate IsRowOf(v: Visit, r: VisitRow) {
    && v.joined.Some?
    && r.id == v.id && r.visitTime == v.visitTime && r.transition == v.transition && r.duration == v.duration
    && r.url == (match v.joined.value.url case Some(url) => url case None => "") && r.title == v.joined.value.title
  }

  /** A visit past both zero and `window` ids before the cursor gives the row. */
  ghost predicate InWindow(visits: seq<Visit>, cursor: int, window: nat, r: VisitRow) {
    exists v :: v in visits && v.id > 0 && v.id > cursor - window && IsRowOf(v, r)
  }

  /** A table counts as new at first, and whenever its highest id, or zero when it is empty, is below
      the cursor. */
  predicate TakenForNew(visits: seq<Visit>, state: Option<HistoryState>) {
    state.None? || (if visits == [] then 0 < state.value.cursor else visits[|visits| - 1].id < state.value.cursor)
  }

  /** The cursor a poll begins at: for a new table its highest id, but no less than zero. */
  function BeginsAt(visits: seq<Visit>, state: Option<HistoryState>): int {
    if !TakenForNew(visits, state) then state.value.cursor
    else if visits == [] || visits[|visits| - 1].id < 0 then 0
    else visits[|visits| - 1].id
  }

  lemma {:induction false} OpenedExactly(visits: seq<Visit>, state: Option<HistoryState>)
    ensures var base := Opened(state, HighestVisitId(visits));
            && base.cursor == BeginsAt(visits, state)
            && (if TakenForNew(visits, state)
                then base.shipped == map[] && base.generation == (if state.None? then 1 else state.value.generation + 1)
                else base == state.value)
  {
  }

  lemma {:induction false} JoinsInWindow(visits: seq<Visit>, state: Option<HistoryState>, window: nat, r: VisitRow)
    ensures Joins(visits, From(Opened(state, HighestVisitId(visits)), window), r)
       <==> InWindow(visits, BeginsAt(visits, state), window, r)
  {
    hide Opened, TakenForNew, BeginsAt;
    OpenedExactly(visits, state);
    var from := From(Opened(state, HighestVisitId(visits)), window);
    if Joins(visits, from, r) {
      var v :| v in visits && v.id > from && v.joined.Some? && r == RowOf(v);
      assert IsRowOf(v, r);
    }
    if InWindow(visits, BeginsAt(visits, state), window, r) {
      var v :| v in visits && v.id > 0 && v.id > BeginsAt(visits, state) - window && IsRowOf(v, r);
      assert r == RowOf(v);
    }
  }

  /** What a visit's record says: its time counted from 1601 in microseconds, its duration in
      milliseconds, both cut toward zero, and its fields as they are; an empty title is left out. */
  lemma {:induction false} RecordExactly(profile: string, generation: nat, r: VisitRow)
    ensures var d := VisitRecord(profile, generation, r);
            && d.provider == BrowserHistory && d.kind == Kind.Visit && !d.degraded
            && d.key == BrowserVisit(profile, generation, r.id)
            && ThousandthOf(r.visitTime, d.ts + 11_644_473_600_000)
            && d.payload.Keys == {"url", "profile", "transition", "visit_id", "duration_ms"}
                                 + (if r.title.Some? && r.title.value != "" then {"title"} else {})
            && d.payload["url"] == Text(r.url) && d.payload["profile"] == Text(profile)
            && d.payload["transition"] == Number(r.transition) && d.payload["visit_id"] == Number(r.id)
            && d.payload["duration_ms"].Number? && ThousandthOf(r.duration, d.payload["duration_ms"].n)
            && ("title" in d.payload ==> d.payload["title"] == Text(r.title.value))
  {
    Thousandths(r.visitTime);
    Thousandths(r.duration);
  }

  /** The quotient by a thousand, cut toward zero. */
  predicate ThousandthOf(n: int, q: int) {
    if n >= 0 then 1000 * q <= n < 1000 * q + 1000 else 1000 * q - 1000 < n <= 1000 * q
  }

  lemma Thousandths(n: int)
    ensures ThousandthOf(n, TruncatedThousandth(n))
  {
  }

  /** Which rows a poll emits, told from the table: those of the window with a url, and, unless the
      table is new, not as last remembered. */
  lemma {:induction false} EmittedExactly(visits: seq<Visit>, window: nat, state: Option<HistoryState>, r: VisitRow)
    requires ValidTable(visits)
    ensures r in AbsorbedBy(visits, window, state).emitted <==>
            && InWindow(visits, BeginsAt(visits, state), window, r) && r.url != ""
            && (TakenForNew(visits, state)
                || !(r.id in state.value.shipped && state.value.shipped[r.id] == Digest(r)))
  {
    hide Absorb, RowsAfter, Joins, Opened, From, InWindow, TakenForNew, BeginsAt, Digest;
    EmittedByRows(visits, window, state, r);
    OpenedExactly(visits, state);
    JoinsInWindow(visits, state, window, r);
  }

  lemma {:induction false} EmittedByRows(visits: seq<Visit>, window: nat, state: Option<HistoryState>, r: VisitRow)
    requires ValidTable(visits)
    ensures var base := Opened(state, HighestVisitId(visits));
            r in AbsorbedBy(visits, window, state).emitted <==>
                Joins(visits, From(base, window), r) && Changed(base.shipped, r)
  {
    hide Absorb, RowsAfter, Joins, Changed, Opened, From;
    var base := Opened(state, HighestVisitId(visits));
    RowsAscend(visits, From(base, window));
    RowsJoin(visits, From(base, window), r);
    AbsorbExactly(RowsAfter(visits, From(base, window)), base.shipped);
  }

  /** Rows are emitted in the order of their ids, each at most once. */
  lemma {:induction false} EmittedAscend(visits: seq<Visit>, window: nat, state: Option<HistoryState>)
    requires ValidTable(visits)
    ensures Ascending(AbsorbedBy(visits, window, state).emitted)
  {
    hide RowsAfter, Opened, From, Absorb;
    var base := Opened(state, HighestVisitId(visits));
    RowsAscend(visits, From(base, window));
    AbsorbAscends(RowsAfter(visits, From(base, window)), base.shipped);
  }

  lemma {:induction false} AbsorbAscends(rows: seq<VisitRow>, shipped: map<int, string>)
    requires Ascending(rows)
    ensures Ascending(Absorb(rows, shipped).emitted)
    ensures forall r :: r in Absorb(rows, shipped).emitted ==> r in rows
    decreases |rows|
  {
    hide Digest;
    if rows != [] {
      var row := rows[0];
      var next := if Changed(shipped, row) then shipped[row.id := Digest(row)] else shipped;
      AbsorbAscends(rows[1..], next);
      var rest := Absorb(rows[1..], next).emitted;
      assert forall i :: 0 <= i < |rest| ==> rest[i] in rest;
      assert forall r :: r in rows[1..] ==> r.id > row.id;
    }
  }

  /** A later window reads no row an earlier one would not. */
  lemma {:induction false} JoinsNarrow(visits: seq<Visit>, from: int, later: int, r: VisitRow)
    requires from <= later && r in RowsAfter(visits, later)
    ensures r in RowsAfter(visits, from)
  {
    RowsJoin(visits, later, r);
    RowsJoin(visits, from, r);
  }

  /** After a poll the map agrees with the table over the window and holds nothing below it; the cursor
      is where the poll began, or the highest row of its window if that is further on. */
  lemma {:induction false} PollAgrees(visits: seq<Visit>, window: nat, state: Option<HistoryState>)
    requires ValidTable(visits)
    ensures var s, begin := Advanced(visits, window, state), BeginsAt(visits, state);
            && (forall r :: InWindow(visits, s.cursor, window, r) && r.url != "" ==>
                  r.id in s.shipped && s.shipped[r.id] == Digest(r))
            && (forall id :: id in s.shipped ==> id > s.cursor - window)
            && s.cursor >= begin
            && (forall r :: InWindow(visits, begin, window, r) ==> r.id <= s.cursor)
            && (s.cursor > begin ==>
                s.cursor == 0 || exists r :: InWindow(visits, begin, window, r) && r.id == s.cursor)
  {
    hide Absorb, RowsAfter, Opened, Digest, InWindow, Joins, BeginsAt;
    var base := Opened(state, HighestVisitId(visits));
    var s := Advanced(visits, window, state);
    OpenedExactly(visits, state);
    AgreesByRows(visits, window, state);
    LastIdBounds(visits, From(base, window));
    forall r
      ensures InWindow(visits, s.cursor, window, r) <==> r in RowsAfter(visits, From(s, window))
      ensures InWindow(visits, base.cursor, window, r) <==> r in RowsAfter(visits, From(base, window))
    {
      WindowRows(visits, s.cursor, window, r);
      WindowRows(visits, base.cursor, window, r);
    }
    var rows := RowsAfter(visits, From(base, window));
    if s.cursor > base.cursor && rows != [] {
      assert rows[|rows| - 1] in rows;
    }
  }

  lemma {:induction false} WindowRows(visits: seq<Visit>, cursor: int, window: nat, r: VisitRow)
    ensures InWindow(visits, cursor, window, r) <==> r in RowsAfter(visits, Max(cursor - window, 0))
  {
    hide RowsAfter;
    var from := Max(cursor - window, 0);
    RowsJoin(visits, from, r);
    if r in RowsAfter(visits, from) {
      var v :| v in visits && v.id > from && v.joined.Some? && r == RowOf(v);
      assert IsRowOf(v, r);
    }
    if InWindow(visits, cursor, window, r) {
      var v :| v in visits && v.id > 0 && v.id > cursor - window && IsRowOf(v, r);
      assert r == RowOf(v);
    }
  }

  lemma {:induction false} AgreesByRows(visits: seq<Visit>, window: nat, state: Option<HistoryState>)
    requires ValidTable(visits)
    ensures var s := Advanced(visits, window, state);
            && (forall r :: r in RowsAfter(visits, From(s, window)) && r.url != "" ==>
                r.id in s.shipped && s.shipped[r.id] == Digest(r))
            && (forall id :: id in s.shipped ==> id > s.cursor - window)
  {
    hide Absorb, RowsAfter, Opened, Digest;
    var base := Opened(state, HighestVisitId(visits));
    var s := Advanced(visits, window, state);
    RowsAscend(visits, From(base, window));
    AbsorbExactly(RowsAfter(visits, From(base, window)), base.shipped);
    RowsAscend(visits, From(s, window));
    forall r | r in RowsAfter(visits, From(s, window)) && r.url != ""
      ensures r.id in s.shipped && s.shipped[r.id] == Digest(r)
    {
      JoinsNarrow(visits, From(base, window), From(s, window), r);
    }
  }

  lemma {:induction false} AbsorbUnchanged(rows: seq<VisitRow>, shipped: map<int, string>)
    requires forall r :: r in rows ==> !Changed(shipped, r)
    ensures Absorb(rows, shipped) == Absorbed([], shipped)
  {
    hide Changed;
    if rows != [] {
      assert rows[0] in rows;
      AbsorbUnchanged(rows[1..], shipped);
    }
  }

  lemma {:induction false} LastIdBounds(visits: seq<Visit>, from: int)
    requires ValidTable(visits)
    ensures RowsAfter(visits, from) != [] ==> from < LastId(RowsAfter(visits, from), from) <= HighestVisitId(visits)
    ensures forall r :: r in RowsAfter(visits, from) ==> r.id <= LastId(RowsAfter(visits, from), from)
  {
    RowsAscend(visits, from);
    var rows := RowsAfter(visits, from);
    if rows != [] {
      var last := rows[|rows| - 1];
      assert last in rows;
      RowsJoin(visits, from, last);
    }
  }

  /** The cursor a poll works from and the one it leaves, against the highest id. */
  lemma {:induction false} CursorBounds(visits: seq<Visit>, window: nat, state: Option<HistoryState>)
    requires ValidTable(visits) && (state.Some? ==> state.value.cursor >= 0)
    ensures var base, s := Opened(state, HighestVisitId(visits)), Advanced(visits, window, state);
            && 0 <= base.cursor <= s.cursor
            && (HighestVisitId(visits) >= 0 ==> s.cursor <= HighestVisitId(visits))
            && (forall r :: r in RowsAfter(visits, From(base, window)) ==> r.id <= s.cursor)
  {
    hide RowsAfter, AbsorbedBy, Pruned;
    var base := Opened(state, HighestVisitId(visits));
    LastIdBounds(visits, From(base, window));
  }

  /** A second poll of an unchanged table emits nothing. It leaves the state as it was exactly
      when the highest id is not negative; below zero every poll takes the table for a new one. */
  lemma {:induction false} SecondPollSilent(visits: seq<Visit>, window: nat, state: Option<HistoryState>)
    requires ValidTable(visits) && (state.Some? ==> state.value.cursor >= 0)
    ensures var s := Advanced(visits, window, state);
            && AbsorbedBy(visits, window, Some(s)).emitted == []
            && (Advanced(visits, window, Some(s)) == s <==> HighestVisitId(visits) >= 0)
  {
    hide Absorb, RowsAfter, Digest, AbsorbedBy;
    var highest := HighestVisitId(visits);
    var s := Advanced(visits, window, state);
    var base := Opened(state, highest);
    var again := Opened(Some(s), highest);
    CursorBounds(visits, window, state);
    var rows := RowsAfter(visits, From(again, window));
    LastIdBounds(visits, From(again, window));
    if highest >= 0 {
      AgreesByRows(visits, window, state);
      if rows != [] {
        JoinsNarrow(visits, From(base, window), From(s, window), rows[|rows| - 1]);
      }
    } else {
      NoRowsBelow(visits, From(again, window));
    }
    AbsorbUnchanged(rows, again.shipped);
    AbsorbedByRows(visits, window, Some(s));
    assert Pruned(s.shipped, s.cursor - window) == s.shipped by { AgreesByRows(visits, window, state); }
  }

  lemma {:induction false} AbsorbedByRows(visits: seq<Visit>, window: nat, state: Option<HistoryState>)
    ensures var base := Opened(state, HighestVisitId(visits));
            AbsorbedBy(visits, window, state) == Absorb(RowsAfter(visits, From(base, window)), base.shipped)
  {
  }

  lemma {:induction false} NoRowsBelow(visits: seq<Visit>, from: int)
    requires ValidTable(visits) && HighestVisitId(visits) < 0 <= from
    ensures RowsAfter(visits, from) == []
  {
    LastIdBounds(visits, from);
  }

  // ---- Whole runs ----

  /** The stored state, and for the current generation what was last emitted of every visit,
      never pruned. */
  datatype Memory = Memory(state: Option<HistoryState>, emitted: map<int, string>)

  function Noted(emitted: map<int, string>, rows: seq<VisitRow>): map<int, string>
    decreases |rows|
  {
    if rows == [] then emitted else Noted(emitted[rows[0].id := Digest(rows[0])], rows[1..])
  }

  predicate NewGeneration(m: Memory, visits: seq<Visit>) { TakenForNew(visits, m.state) }

  /** What was last emitted in the generation a poll of this table belongs to. */
  function LastEmitted(m: Memory, visits: seq<Visit>): map<int, string> {
    if NewGeneration(m, visits) then map[] else m.emitted
  }

  /** A poll whose records and state are committed together, or refused together. */
  function Polled(m: Memory, visits: seq<Visit>, window: nat, commits: bool): Memory {
    if !commits then m
    else Memory(Some(Advanced(visits, window, m.state)),
                Noted(LastEmitted(m, visits), AbsorbedBy(visits, window, m.state).emitted))
  }

  predicate AgreeAt(a: map<int, string>, b: map<int, string>, id: int) {
    (id in a <==> id in b) && (id in a ==> a[id] == b[id])
  }

  /** Pruning loses nothing that is still read: above the floor, the stored map is what was last
      emitted. */
  ghost predicate Current(m: Memory, window: nat) {
    m.state.Some? ==>
      && m.state.value.cursor >= 0
      && (forall id :: id > m.state.value.cursor - window ==> AgreeAt(m.state.value.shipped, m.emitted, id))
  }

  lemma {:induction false} NotedAgrees(
      rows: seq<VisitRow>, shipped: map<int, string>, emitted: map<int, string>, id: int)
    requires AgreeAt(shipped, emitted, id)
    ensures AgreeAt(Absorb(rows, shipped).shipped, Noted(emitted, Absorb(rows, shipped).emitted), id)
    decreases |rows|
  {
    hide Digest;
    if rows != [] {
      var row := rows[0];
      if Changed(shipped, row) {
        var rest := Absorb(rows[1..], shipped[row.id := Digest(row)]);
        assert ([row] + rest.emitted)[1..] == rest.emitted;
        NotedAgrees(rows[1..], shipped[row.id := Digest(row)], emitted[row.id := Digest(row)], id);
      } else {
        NotedAgrees(rows[1..], shipped, emitted, id);
      }
    }
  }

  /** A first poll is of generation 1. The generation rises, by one, exactly when the table is taken for
      new again; within a generation the cursor never goes back. */
  lemma {:induction false} GenerationExactly(visits: seq<Visit>, window: nat, before: Option<HistoryState>)
    requires ValidTable(visits)
    ensures var after := Advanced(visits, window, before);
            match before
            case None => after.generation == 1
            case Some(was) =>
              && after.generation == was.generation + (if TakenForNew(visits, before) then 1 else 0)
              && (!TakenForNew(visits, before) ==> was.cursor <= after.cursor)
  {
    hide AbsorbedBy, Pruned, RowsAfter, BeginsAt, TakenForNew;
    OpenedExactly(visits, before);
  }

  /** Over any tables, committed or refused: a row is emitted exactly when it is joined, in the
      window, has a url, and differs from what was last emitted of it in this generation. */
  lemma {:induction false} PollKeeps(m: Memory, visits: seq<Visit>, window: nat, commits: bool)
    requires ValidTable(visits) && Current(m, window)
    ensures Current(Polled(m, visits, window, commits), window)
    ensures forall r :: r in AbsorbedBy(visits, window, m.state).emitted <==>
              && InWindow(visits, BeginsAt(visits, m.state), window, r) && r.url != ""
              && (TakenForNew(visits, m.state) || !(r.id in m.emitted && m.emitted[r.id] == Digest(r)))
  {
    hide Absorb, Joins, Digest, RowsAfter, Noted;
    var base := Opened(m.state, HighestVisitId(visits));
    var from, last := From(base, window), LastEmitted(m, visits);
    CursorBounds(visits, window, m.state);
    RowsAscend(visits, from);
    forall r
      ensures r in AbsorbedBy(visits, window, m.state).emitted <==> Joins(visits, from, r) && Changed(last, r)
      ensures Joins(visits, from, r) <==> InWindow(visits, BeginsAt(visits, m.state), window, r)
    {
      JoinsInWindow(visits, m.state, window, r);
      EmittedByRows(visits, window, m.state, r);
      RowsJoin(visits, from, r);
      if r in RowsAfter(visits, from) {
        assert r.id > base.cursor - window && AgreeAt(base.shipped, last, r.id);
      }
    }
    var after := Polled(m, visits, window, true);
    forall id | id > after.state.value.cursor - window
      ensures AgreeAt(after.state.value.shipped, after.emitted, id)
    {
      assert AgreeAt(base.shipped, last, id);
      NotedAgrees(RowsAfter(visits, from), base.shipped, last, id);
    }
  }

  function PolledAll(m: Memory, window: nat, polls: seq<(seq<Visit>, bool)>): Memory
    decreases |polls|
  {
    if polls == [] then m else PolledAll(Polled(m, polls[0].0, window, polls[0].1), window, polls[1..])
  }

  /** The same after any sequence of polls of any tables. */
  lemma {:induction false} RunKeeps(m: Memory, window: nat, polls: seq<(seq<Visit>, bool)>)
    requires Current(m, window) && forall i :: 0 <= i < |polls| ==> ValidTable(polls[i].0)
    ensures Current(PolledAll(m, window, polls), window)
    decreases |polls|
  {
    hide Current, Polled, ValidTable;
    if polls != [] {
      PollKeeps(m, polls[0].0, window, polls[0].1);
      RunKeeps(Polled(m, polls[0].0, window, polls[0].1), window, polls[1..]);
    }
  }

  /** How often a committed poll finds the table replaced by another. */
  function Replacements(m: Memory, window: nat, polls: seq<(seq<Visit>, bool)>): nat
    decreases |polls|
  {
    if polls == [] then 0
    else (if polls[0].1 && NewGeneration(m, polls[0].0) then 1 else 0)
         + Replacements(Polled(m, polls[0].0, window, polls[0].1), window, polls[1..])
  }

  /** Over any sequence of polls the generation counts the replacements, so that an id met again
      in another table comes under another generation; without one the cursor never goes back. */
  lemma {:induction false} RunAdvances(m: Memory, window: nat, polls: seq<(seq<Visit>, bool)>)
    requires m.state.Some? && Current(m, window) && forall i :: 0 <= i < |polls| ==> ValidTable(polls[i].0)
    ensures var after := PolledAll(m, window, polls).state;
            && after.Some?
            && after.value.generation == m.state.value.generation + Replacements(m, window, polls)
            && (Replacements(m, window, polls) == 0 ==> m.state.value.cursor <= after.value.cursor)
    decreases |polls|
  {
    hide Current, ValidTable, Advanced, AbsorbedBy, Noted, HighestVisitId;
    if polls != [] {
      CurrentCursor(m, window);
      GenerationExactly(polls[0].0, window, m.state);
      PollKeeps(m, polls[0].0, window, polls[0].1);
      RunAdvances(Polled(m, polls[0].0, window, polls[0].1), window, polls[1..]);
    }
  }

  lemma {:induction false} CurrentCursor(m: Memory, window: nat)
    requires m.state.Some? && Current(m, window)
    ensures m.state.value.cursor >= 0
  {
  }

  /** Two visits of a profile share a key exactly when they share generation and id, so an id met
      again in another generation is another record. */
  lemma {:induction false} GenerationsApart(
      profile: string, generation: nat, later: nat, a: VisitRow, b: VisitRow, device: string, m: nat, n: nat)
    ensures var x := Envelope(device, m, VisitRecord(profile, generation, a));
            var y := Envelope(device, n, VisitRecord(profile, later, b));
            Keys.Preimage(x) == Keys.Preimage(y) <==> generation == later && a.id == b.id
  {
    hide Keys.Preimage;
    var x := Envelope(device, m, VisitRecord(profile, generation, a));
    var y := Envelope(device, n, VisitRecord(profile, later, b));
    Keys.MeetsExactly(x, y);
  }
}
