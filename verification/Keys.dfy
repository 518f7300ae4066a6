/** Dedup keys (src/runtime/dedup.rs, `into_envelope` in src/runtime/mod.rs). A dedup key is the hash
    of its joined fields; the hash is outside the model, so what is shown here is about the text that
    is hashed. Strings are sequences of UTF-8 units, one `char` each. */
module Keys {
  import opened Options
  import opened Records

  const SEPARATOR: char := '\U{1f}'

  function Join(fields: seq<string>): string
    requires fields != []
  {
    if |fields| == 1 then fields[0] else fields[0] + [SEPARATOR] + Join(fields[1..])
  }

  predicate Clean(field: string) { SEPARATOR !in field }

  /** Every field but the last is free of the separator. */
  predicate Separable(fields: seq<string>) {
    fields != [] && forall i :: 0 <= i < |fields| - 1 ==> Clean(fields[i])
  }

  function Digit(d: nat): char
    requires d < 10
  {
    ('0' as int + d) as char
  }

  function DecNat(n: nat): string {
    if n < 10 then [Digit(n)] else DecNat(n / 10) + [Digit(n % 10)]
  }

  /** Decimal text of an integer. */
  function Dec(n: int): string {
    if n < 0 then ['-'] + DecNat(-n) else DecNat(n)
  }

  function ProviderName(p: Provider): string {
    match p
    case Windows => "windows"
    case BrowserHistory => "browser_history"
    case ClaudeCode => "claude_code"
  }

  function KindName(k: Kind): string {
    match k
    case Tick => "tick"
    case Focus => "focus"
    case StateChange => "state_change"
    case Lock => "lock"
    case Unlock => "unlock"
    case Sleep => "sleep"
    case Wake => "wake"
    case BufferOverflow => "buffer_overflow"
    case Visit => "visit"
    case Message => "message"
    case Session => "session"
    case Touch => "touch"
  }

  /** The fields whose join is hashed. */
  function Fields(e: Envelope): (fields: seq<string>)
    ensures |fields| >= 5
  {
    match e.draft.key
    case WindowsKey => [e.device, ProviderName(Windows), KindName(e.draft.kind), Dec(e.draft.ts), Dec(e.seqno)]
    case BrowserVisit(profile, generation, visitId) =>
      [e.device, ProviderName(BrowserHistory), profile, Dec(generation), Dec(visitId)]
    case ClaudeMessage(session, uuid, block) =>
      [e.device, ProviderName(ClaudeCode), KindName(Message), session, uuid, Dec(block)]
    case ClaudeSession(session, field, text) =>
      [e.device, ProviderName(ClaudeCode), KindName(Session), session, field, text]
    case ClaudeTouch(session, uuid, repo, action) =>
      [e.device, ProviderName(ClaudeCode), KindName(Touch), session, uuid, repo, action]
  }

  function Preimage(e: Envelope): string { Join(Fields(e)) }

  // ---- Decimal text ----

  function DigitValue(c: char): int { c as int - '0' as int }

  function NatOf(s: string): int {
    if s == [] then 0 else NatOf(s[..|s| - 1]) * 10 + DigitValue(s[|s| - 1])
  }

  lemma {:induction false} DecNatReads(n: nat)
    ensures NatOf(DecNat(n)) == n
    ensures forall c :: c in DecNat(n) ==> '0' <= c <= '9'
    ensures DecNat(n) != []
  {
    if n >= 10 {
      DecNatReads(n / 10);
      assert DecNat(n)[..|DecNat(n)| - 1] == DecNat(n / 10);
    } else {
      assert [Digit(n)][..0] == [];
    }
  }

  lemma {:induction false} DecSign(n: int)
    ensures Dec(n) != [] && (Dec(n)[0] == '-' <==> n < 0)
    ensures n < 0 ==> Dec(n)[1..] == DecNat(-n)
  {
    DecNatReads(if n < 0 then -n else n);
    assert n >= 0 ==> Dec(n)[0] in DecNat(n);
  }

  lemma {:induction false} DecInjective(a: int, b: int)
    requires Dec(a) == Dec(b)
    ensures a == b
  {
    DecSign(a);
    DecSign(b);
    DecNatReads(if a < 0 then -a else a);
    DecNatReads(if b < 0 then -b else b);
  }

  lemma {:induction false} DecIsPlain(n: int)
    ensures Clean(Dec(n)) && ':' !in Dec(n)
  {
    DecNatReads(if n < 0 then -n else n);
  }

  // ---- Joined fields ----

  /** Text up to the first mark is determined. */
  lemma {:induction false} CutAt(mark: char, a: string, x: string, b: string, y: string)
    requires mark !in a && mark !in b && a + [mark] + x == b + [mark] + y
    ensures a == b && x == y
  {
    var text := a + [mark] + x;
    assert text[|a|] == mark && forall i :: 0 <= i < |a| ==> text[i] == a[i] != mark;
    assert text[|b|] == mark && forall i :: 0 <= i < |b| ==> text[i] == b[i] != mark;
    assert a == text[..|a|] && b == text[..|b|];
    assert x == text[|a| + 1..] && y == text[|b| + 1..];
  }

  /** And so is text after the last. */
  lemma {:induction false} CutLast(mark: char, a: string, x: string, b: string, y: string)
    requires mark !in x && mark !in y && a + [mark] + x == b + [mark] + y
    ensures a == b && x == y
  {
    var text := a + [mark] + x;
    assert text[|a|] == mark && forall i :: |a| < i < |text| ==> text[i] == x[i - |a| - 1] != mark;
    assert text[|b|] == mark && forall i :: |b| < i < |text| ==> text[i] == y[i - |b| - 1] != mark;
    assert a == text[..|a|] && b == text[..|b|];
    assert x == text[|a| + 1..] && y == text[|b| + 1..];
  }

  /** Joined lists of any lengths agree on the clean fields they both begin with. */
  lemma {:induction false} JoinHeads(f: seq<string>, g: seq<string>, k: nat)
    requires k < |f| && k < |g| && Join(f) == Join(g)
    requires forall i :: 0 <= i < k ==> Clean(f[i]) && Clean(g[i])
    ensures f[..k] == g[..k] && Join(f[k..]) == Join(g[k..])
  {
    if k == 0 {
      assert f[0..] == f && g[0..] == g;
    } else {
      CutAt(SEPARATOR, f[0], Join(f[1..]), g[0], Join(g[1..]));
      JoinHeads(f[1..], g[1..], k - 1);
      assert f[1..][k - 1..] == f[k..] && g[1..][k - 1..] == g[k..];
      assert f[..k] == [f[0]] + f[1..][..k - 1] && g[..k] == [g[0]] + g[1..][..k - 1];
    }
  }

  /** The join of two lists, one after the other. */
  lemma {:induction false} JoinConcat(f: seq<string>, g: seq<string>)
    requires f != [] && g != []
    ensures Join(f + g) == Join(f) + [SEPARATOR] + Join(g)
  {
    if |f| == 1 {
      assert (f + g)[1..] == g;
    } else {
      assert (f + g)[1..] == f[1..] + g;
      JoinConcat(f[1..], g);
      var s, x, y, z := [SEPARATOR], f[0], Join(f[1..]), Join(g);
      assert x + s + (y + s + z) == (x + s + y) + s + z;
    }
  }

  lemma {:induction false} JoinInjective(f: seq<string>, g: seq<string>)
    requires Separable(f) && Separable(g) && |f| == |g| && Join(f) == Join(g)
    ensures f == g
  {
    var k := |f| - 1;
    JoinHeads(f, g, k);
    assert f[k..] == [f[k]] && g[k..] == [g[k]];
    assert f == f[..k] + f[k..] && g == g[..k] + g[k..];
  }

  lemma NamesDiffer(p: Provider, q: Provider, k: Kind, l: Kind)
    ensures ProviderName(p) == ProviderName(q) ==> p == q
    ensures KindName(k) == KindName(l) ==> k == l
    ensures Clean(ProviderName(p)) && Clean(KindName(k))
  {
    assert "message"[0] == 'm' && "session"[0] == 's';
    assert "tick"[0] == 't' && "lock"[0] == 'l' && "wake"[0] == 'w';
    assert "focus"[0] == 'f' && "sleep"[0] == 's' && "visit"[0] == 'v' && "touch"[0] == 't';
  }

  /** What a key is meant to identify: the source on its device, and for window records the
      record itself. */
  predicate SameIdentity(a: Envelope, b: Envelope) {
    && a.device == b.device && a.draft.key == b.draft.key
    && (a.draft.key.WindowsKey? ==> a.draft.kind == b.draft.kind && a.draft.ts == b.draft.ts && a.seqno == b.seqno)
  }

  function ProviderOf(key: KeySource): Provider {
    match key
    case WindowsKey => Windows
    case BrowserVisit(_, _, _) => BrowserHistory
    case _ => ClaudeCode
  }

  function ClaudeKind(key: KeySource): Kind {
    if key.ClaudeMessage? then Message else if key.ClaudeSession? then Session else Touch
  }

  predicate TitleField(field: string) { field in {"custom_title", "ai_title", "pr"} }

  predicate ActionName(action: string) { action in {"edit", "read", "run"} }

  /** What the provider makes: titles and links of three fields, touches of three actions. Every
      other text is as it was found. */
  predicate Made(key: KeySource) {
    && (key.ClaudeSession? ==> TitleField(key.field))
    && (key.ClaudeTouch? ==> ActionName(key.action))
  }

  lemma FixedNamesClean(name: string)
    ensures TitleField(name) || ActionName(name) ==> Clean(name)
  {
  }

  function Separators(text: string): nat {
    if text == "" then 0 else (if text[0] == SEPARATOR then 1 else 0) + Separators(text[1..])
  }

  lemma {:induction false} SeparatorsAppend(a: string, b: string)
    ensures Separators(a + b) == Separators(a) + Separators(b)
  {
    if a == "" {
      assert a + b == b;
    } else {
      assert (a + b)[1..] == a[1..] + b;
      SeparatorsAppend(a[1..], b);
    }
  }

  lemma {:induction false} CleanExactly(text: string)
    ensures Clean(text) <==> Separators(text) == 0
  {
    if text != "" {
      CleanExactly(text[1..]);
    }
  }

  /** A join holds one separator between fields and those of the fields, of which clean lists
      have the fewest. */
  lemma {:induction false} JoinSeparators(f: seq<string>)
    requires f != []
    ensures Separators(Join(f)) >= |f| - 1
    ensures Separators(Join(f)) == |f| - 1 <==> forall field :: field in f ==> Clean(field)
  {
    CleanExactly(f[0]);
    if |f| > 1 {
      JoinSeparators(f[1..]);
      SeparatorsAppend(f[0] + [SEPARATOR], Join(f[1..]));
      SeparatorsAppend(f[0], [SEPARATOR]);
      assert forall field :: field in f <==> field == f[0] || field in f[1..];
    }
  }

  /** Two neighbouring fields may swap text across a separator held by either. */
  lemma {:induction false} Resplit(f: seq<string>, i: nat) returns (g: seq<string>)
    requires i < |f| && |f| > 1 && !Clean(f[i])
    ensures |g| == |f| && g != f && Join(g) == Join(f)
  {
    var p :| 0 <= p < |f[i]| && f[i][p] == SEPARATOR;
    var x, y := f[i][..p], f[i][p + 1..];
    assert f[i] == x + [SEPARATOR] + y;
    var at := if i + 1 < |f| then i else i - 1;
    var l, r := if at == i then x else f[at] + [SEPARATOR] + x, if at == i then y + [SEPARATOR] + f[i + 1] else y;
    var head, tail := f[..at], f[at + 2..];
    assert f == head + ([f[at], f[at + 1]] + tail);
    assert f[at] + [SEPARATOR] + f[at + 1] == l + [SEPARATOR] + r;
    g := head + ([l, r] + tail);
    JoinPair(f[at], f[at + 1], l, r, tail);
    JoinAfter(head, [f[at], f[at + 1]] + tail, [l, r] + tail);
    assert g[at] == l && |l| != |f[at]|;
  }

  lemma {:induction false} JoinPair(a: string, b: string, l: string, r: string, tail: seq<string>)
    requires a + [SEPARATOR] + b == l + [SEPARATOR] + r
    ensures Join([a, b] + tail) == Join([l, r] + tail)
  {
    assert ([a, b] + tail)[1..] == [b] + tail && ([l, r] + tail)[1..] == [r] + tail;
    if tail == [] {
      assert [b] + tail == [b] && [r] + tail == [r];
    } else {
      assert ([b] + tail)[1..] == tail && ([r] + tail)[1..] == tail;
      var more := [SEPARATOR] + Join(tail);
      assert a + [SEPARATOR] + (b + more) == (a + [SEPARATOR] + b) + more == (l + [SEPARATOR] + r) + more
          == l + [SEPARATOR] + (r + more);
      assert b + [SEPARATOR] + Join(tail) == b + more && r + [SEPARATOR] + Join(tail) == r + more;
    }
  }

  /** A list of fields is the only one of its length with its join exactly when none of its
      fields holds the separator. */
  lemma {:induction false} JoinUniqueExactly(f: seq<string>)
    requires |f| > 1
    ensures (forall g :: |g| == |f| && Join(g) == Join(f) ==> g == f) <==> forall field :: field in f ==> Clean(field)
  {
    hide Join, Clean, Separators;
    JoinSeparators(f);
    if forall field :: field in f ==> Clean(field) {
      forall g: seq<string> | |g| == |f| && Join(g) == Join(f)
        ensures g == f
      {
        JoinSeparators(g);
        BothClean(f, g);
      }
    } else {
      var field :| field in f && !Clean(field);
      var i :| 0 <= i < |f| && f[i] == field;
      var g := Resplit(f, i);
    }
  }

  lemma {:induction false} BothClean(f: seq<string>, g: seq<string>)
    requires |f| == |g| > 1 && Join(f) == Join(g)
    requires (forall field :: field in f ==> Clean(field)) && (forall field :: field in g ==> Clean(field))
    ensures f == g
  {
    assert forall i :: 0 <= i < |f| ==> f[i] in f && g[i] in g;
    JoinInjective(f, g);
  }

  lemma {:induction false} SeparatorShifts(x: string, y: string, z: string, w: string)
    ensures Join([x + [SEPARATOR] + y, z, w]) == Join([x, y, z + [SEPARATOR] + w])
  {
    var s := [SEPARATOR];
    JoinThree(x + s + y, z, w);
    JoinThree(x, y, z + s + w);
    assert (x + s + y) + s + (z + s + w) == x + s + (y + s + (z + s + w));
  }

  lemma {:induction false} JoinThree(x: string, y: string, z: string)
    ensures Join([x, y, z]) == x + [SEPARATOR] + (y + [SEPARATOR] + z)
  {
    assert [x, y, z][1..] == [y, z] && [y, z][1..] == [z];
    assert Join([z]) == z && Join([y, z]) == y + [SEPARATOR] + z;
  }

  /** The hypothesis is needed: with the separator inside a session id, the title `z` = `w` of
      one session is hashed as the title `y` of another (y and z being field names such as
      ai_title and pr). */
  lemma {:induction false} SeparatorCollides(e: Envelope, x: string, y: string, z: string, w: string)
    requires e.draft.key == ClaudeSession(x + [SEPARATOR] + y, z, w)
    ensures var other := e.(draft := e.draft.(key := ClaudeSession(x, y, z + [SEPARATOR] + w)));
            !SameIdentity(e, other) && Preimage(e) == Preimage(other)
  {
    hide ProviderName, KindName;
    var other := e.(draft := e.draft.(key := ClaudeSession(x, y, z + [SEPARATOR] + w)));
    var head := [e.device, ProviderName(ClaudeCode), KindName(Session)];
    SeparatorShifts(x, y, z, w);
    assert Fields(e) == head + [x + [SEPARATOR] + y, z, w];
    assert Fields(other) == head + [x, y, z + [SEPARATOR] + w];
    JoinAfter(head, [x + [SEPARATOR] + y, z, w], [x, y, z + [SEPARATOR] + w]);
    assert |x + [SEPARATOR] + y| != |x|;
  }

  lemma {:induction false} JoinAfter(head: seq<string>, f: seq<string>, g: seq<string>)
    requires f != [] && g != [] && Join(f) == Join(g)
    ensures Join(head + f) == Join(head + g)
  {
    if head == [] {
      assert head + f == f && head + g == g;
    } else {
      assert (head + f)[1..] == head[1..] + f && (head + g)[1..] == head[1..] + g;
      JoinAfter(head[1..], f, g);
    }
  }

  // ---- Records that share a key ----

  /** The fields after the device and the names that every record of a kind shares. */
  function Rest(e: Envelope): (rest: seq<string>)
    ensures rest != []
  {
    if ProviderOf(e.draft.key).ClaudeCode? then Fields(e)[3..] else Fields(e)[2..]
  }

  function Header(key: KeySource): (header: seq<string>)
    ensures header != []
  {
    if ProviderOf(key).ClaudeCode? then [ProviderName(ClaudeCode), KindName(ClaudeKind(key))]
    else [ProviderName(ProviderOf(key))]
  }

  lemma {:induction false} PreimageParts(e: Envelope)
    ensures Fields(e) == [e.device] + (Header(e.draft.key) + Rest(e))
    ensures Preimage(e) == e.device + [SEPARATOR] + (Join(Header(e.draft.key)) + [SEPARATOR] + Join(Rest(e)))
  {
    hide Dec, KindName, ProviderName, Join;
    assert Fields(e) == [e.device] + (Header(e.draft.key) + Rest(e));
    JoinConcat([e.device], Header(e.draft.key) + Rest(e));
    JoinConcat(Header(e.draft.key), Rest(e));
    JoinOne(e.device);
  }

  lemma JoinOne(text: string)
    ensures Join([text]) == text
  {
  }

  lemma {:induction false} SamePrefix(a: string, x: string, y: string)
    requires a + x == a + y
    ensures x == y
  {
    assert x == (a + x)[|a|..] && y == (a + y)[|a|..];
  }

  /** Headers that open the same text are the same. */
  lemma {:induction false} HeadersApart(a: KeySource, b: KeySource, f: seq<string>, g: seq<string>)
    requires f != [] && g != [] && Join(Header(a) + f) == Join(Header(b) + g)
    ensures Header(a) == Header(b) && Join(f) == Join(g)
    ensures a.WindowsKey? == b.WindowsKey? && a.BrowserVisit? == b.BrowserVisit?
    ensures a.ClaudeMessage? == b.ClaudeMessage? && a.ClaudeSession? == b.ClaudeSession?
  {
    hide ProviderName, KindName, Join, Clean;
    NamesDiffer(ProviderOf(a), ProviderOf(b), ClaudeKind(a), ClaudeKind(b));
    NamesDiffer(ProviderOf(b), ProviderOf(a), ClaudeKind(b), ClaudeKind(a));
    NamesDiffer(ClaudeCode, ClaudeCode, Message, Session);
    JoinHeads(Header(a) + f, Header(b) + g, 1);
    assert (Header(a) + f)[..1][0] == (Header(b) + g)[..1][0];
    var k := |Header(a)|;
    JoinHeads(Header(a) + f, Header(b) + g, k);
    assert (Header(a) + f)[..k] == Header(a) && (Header(b) + g)[..k] == Header(b);
    assert (Header(a) + f)[k..] == f && (Header(b) + g)[k..] == g;
    assert k == 2 ==> Header(a)[1] == Header(b)[1];
  }

  /** When two records of one device hash the same text, told from their own fields. */
  predicate Meets(a: Envelope, b: Envelope) {
    match (a.draft.key, b.draft.key)
    case (WindowsKey, WindowsKey) => a.draft.kind == b.draft.kind && a.draft.ts == b.draft.ts && a.seqno == b.seqno
    case (BrowserVisit(_, _, _), BrowserVisit(_, _, _)) => a.draft.key == b.draft.key
    case (ClaudeMessage(s, u, n), ClaudeMessage(s', u', n')) => n == n' && Join([s, u]) == Join([s', u'])
    case (ClaudeSession(s, f, t), ClaudeSession(s', f', t')) => Join([s, f, t]) == Join([s', f', t'])
    case (ClaudeTouch(s, u, r, x), ClaudeTouch(s', u', r', x')) => x == x' && Join([s, u, r]) == Join([s', u', r'])
    case _ => false
  }

  /** Keys of different kinds never meet on one device; those of one kind exactly when their own
      fields do. */
  lemma {:induction false} MeetsExactly(a: Envelope, b: Envelope)
    requires a.device == b.device && Made(a.draft.key) && Made(b.draft.key)
    ensures Preimage(a) == Preimage(b) <==> Meets(a, b)
  {
    hide Dec, KindName, ProviderName, Join, Fields, Preimage, Rest, Header;
    PreimageParts(a);
    PreimageParts(b);
    JoinConcat(Header(a.draft.key), Rest(a));
    JoinConcat(Header(b.draft.key), Rest(b));
    if Preimage(a) == Preimage(b) {
      SamePrefix(a.device + [SEPARATOR], Join(Header(a.draft.key) + Rest(a)), Join(Header(b.draft.key) + Rest(b)));
      HeadersApart(a.draft.key, b.draft.key, Rest(a), Rest(b));
      RestsMeet(a, b);
    } else if Meets(a, b) {
      RestsMeet(a, b);
      SameHeader(a.draft.key, b.draft.key);
    }
  }

  lemma {:induction false} SameHeader(a: KeySource, b: KeySource)
    requires a.WindowsKey? == b.WindowsKey? && a.BrowserVisit? == b.BrowserVisit?
    requires a.ClaudeMessage? == b.ClaudeMessage? && a.ClaudeSession? == b.ClaudeSession?
    ensures Header(a) == Header(b)
  {
  }

  /** Within a kind, the fields after the header join to the same text exactly when they meet. */
  lemma {:induction false} RestsMeet(a: Envelope, b: Envelope)
    requires Made(a.draft.key) && Made(b.draft.key)
    requires a.draft.key.WindowsKey? == b.draft.key.WindowsKey?
        && a.draft.key.BrowserVisit? == b.draft.key.BrowserVisit?
    requires a.draft.key.ClaudeMessage? == b.draft.key.ClaudeMessage?
    requires a.draft.key.ClaudeSession? == b.draft.key.ClaudeSession?
    ensures Join(Rest(a)) == Join(Rest(b)) <==> Meets(a, b)
  {
    hide Dec, KindName, ProviderName, Join, Clean, TitleField, ActionName;
    match a.draft.key
    case WindowsKey =>
      WindowsMeet(a, b);
    case BrowserVisit(profile, generation, id) =>
      VisitsMeet(a, b);
    case ClaudeMessage(s, u, n) =>
      var ClaudeMessage(s', u', n') := b.draft.key;
      assert Rest(a) == [s, u] + [Dec(n)] && Rest(b) == [s', u'] + [Dec(n')];
      LastFieldMeets([s, u], Dec(n), [s', u'], Dec(n')) by { DecIsPlain(n); DecIsPlain(n'); }
      if Dec(n) == Dec(n') {
        DecInjective(n, n');
      }
    case ClaudeSession(s, f, t) =>
      var ClaudeSession(s', f', t') := b.draft.key;
      assert Rest(a) == [s, f, t] && Rest(b) == [s', f', t'];
    case ClaudeTouch(s, u, r, x) =>
      var ClaudeTouch(s', u', r', x') := b.draft.key;
      assert Rest(a) == [s, u, r] + [x] && Rest(b) == [s', u', r'] + [x'];
      LastFieldMeets([s, u, r], x, [s', u', r'], x') by { FixedNamesClean(x); FixedNamesClean(x'); }
  }

  lemma {:induction false} LastFieldMeets(f: seq<string>, x: string, g: seq<string>, y: string)
    requires f != [] && g != [] && Clean(x) && Clean(y)
    ensures Join(f + [x]) == Join(g + [y]) <==> x == y && Join(f) == Join(g)
  {
    JoinConcat(f, [x]);
    JoinConcat(g, [y]);
    if Join(f + [x]) == Join(g + [y]) {
      CutLast(SEPARATOR, Join(f), x, Join(g), y);
    }
  }

  lemma {:induction false} VisitsMeet(a: Envelope, b: Envelope)
    requires a.draft.key.BrowserVisit? && b.draft.key.BrowserVisit?
    ensures Join(Rest(a)) == Join(Rest(b)) <==> a.draft.key == b.draft.key
  {
    hide Dec, Join, Clean;
    var BrowserVisit(p, g, n) := a.draft.key;
    var BrowserVisit(p', g', n') := b.draft.key;
    assert Rest(a) == [p, Dec(g)] + [Dec(n)] && Rest(b) == [p', Dec(g')] + [Dec(n')];
    DecIsPlain(g);
    DecIsPlain(g');
    DecIsPlain(n);
    DecIsPlain(n');
    LastFieldMeets([p, Dec(g)], Dec(n), [p', Dec(g')], Dec(n'));
    assert [p, Dec(g)] == [p] + [Dec(g)] && [p', Dec(g')] == [p'] + [Dec(g')];
    LastFieldMeets([p], Dec(g), [p'], Dec(g'));
    JoinOne(p);
    JoinOne(p');
    if Join(Rest(a)) == Join(Rest(b)) {
      DecInjective(n, n');
      DecInjective(g, g');
    }
  }

  lemma {:induction false} WindowsMeet(a: Envelope, b: Envelope)
    requires a.draft.key.WindowsKey? && b.draft.key.WindowsKey?
    ensures Join(Rest(a)) == Join(Rest(b)) <==>
        a.draft.kind == b.draft.kind && a.draft.ts == b.draft.ts && a.seqno == b.seqno
  {
    hide Dec, Join, Clean, KindName;
    var (k, t, n) := (KindName(a.draft.kind), Dec(a.draft.ts), Dec(a.seqno));
    var (k', t', n') := (KindName(b.draft.kind), Dec(b.draft.ts), Dec(b.seqno));
    assert Rest(a) == [k, t] + [n] && Rest(b) == [k', t'] + [n'];
    DecIsPlain(a.draft.ts);
    DecIsPlain(b.draft.ts);
    DecIsPlain(a.seqno);
    DecIsPlain(b.seqno);
    LastFieldMeets([k, t], n, [k', t'], n');
    assert [k, t] == [k] + [t] && [k', t'] == [k'] + [t'];
    LastFieldMeets([k], t, [k'], t');
    JoinOne(k);
    JoinOne(k');
    if Join(Rest(a)) == Join(Rest(b)) {
      DecInjective(a.seqno, b.seqno);
      DecInjective(a.draft.ts, b.draft.ts);
      NamesDiffer(Windows, Windows, a.draft.kind, b.draft.kind);
    }
  }

  /** A field name between two separators. */
  function Framed(x: string, field: string, y: string): string { x + [SEPARATOR] + field + [SEPARATOR] + y }

  ghost predicate HoldsTitleField(text: string) {
    exists x, field, y :: TitleField(field) && text == Framed(x, field, y)
  }

  /** The texts of a record that make its key its own, whatever else its device sends. */
  ghost predicate Telling(key: KeySource) {
    match key
    case WindowsKey => true
    case BrowserVisit(_, _, _) => true
    case ClaudeMessage(session, uuid, _) => Clean(session) && Clean(uuid)
    case ClaudeSession(session, _, text) =>
      !HoldsTitleField(session + [SEPARATOR]) && !HoldsTitleField([SEPARATOR] + text)
    case ClaudeTouch(session, uuid, repo, _) => Clean(session) && Clean(uuid) && Clean(repo)
  }

  /** No other record the device can send has the key. */
  ghost predicate Unique(e: Envelope) {
    forall o: Envelope :: o.device == e.device && Made(o.draft.key) && Preimage(o) == Preimage(e) ==> SameIdentity(o, e)
  }

  function WithKey(e: Envelope, key: KeySource): Envelope { e.(draft := e.draft.(key := key)) }

  /** A record's key is its own exactly when its own texts are telling: window and visit keys
      always, the others unless a text of theirs can be read as a boundary. */
  lemma {:induction false} KeyUniqueExactly(e: Envelope)
    requires Made(e.draft.key)
    ensures Unique(e) <==> Telling(e.draft.key)
  {
    hide Preimage, Join, Clean, TitleField, ActionName, HoldsTitleField;
    if Telling(e.draft.key) {
      forall o: Envelope | o.device == e.device && Made(o.draft.key) && Preimage(o) == Preimage(e)
        ensures SameIdentity(o, e)
      {
        MeetsExactly(o, e);
        TellingMeets(o, e);
      }
    } else {
      var key := Mistaken(e);
      MeetsExactly(WithKey(e, key), e);
      assert !SameIdentity(WithKey(e, key), e);
    }
  }

  lemma {:induction false} TellingMeets(o: Envelope, e: Envelope)
    requires Made(o.draft.key) && Made(e.draft.key) && Meets(o, e) && Telling(e.draft.key)
    ensures o.draft.key == e.draft.key
  {
    hide Join, Clean, TitleField, ActionName, HoldsTitleField;
    match e.draft.key
    case WindowsKey =>
    case BrowserVisit(_, _, _) =>
    case ClaudeMessage(s, u, _) =>
      JoinUniqueExactly([s, u]);
      assert [o.draft.key.sessionId, o.draft.key.uuid] == [s, u];
      assert [o.draft.key.sessionId, o.draft.key.uuid][0] == s && [o.draft.key.sessionId, o.draft.key.uuid][1] == u;
    case ClaudeSession(s, f, t) =>
      var ClaudeSession(s', f', t') := o.draft.key;
      TitleParses(s, f, t, s', f', t');
    case ClaudeTouch(s, u, r, _) =>
      JoinUniqueExactly([s, u, r]);
      var g := [o.draft.key.sessionId, o.draft.key.uuid, o.draft.key.repo];
      assert g == [s, u, r];
      assert g[0] == s && g[1] == u && g[2] == r;
  }

  /** One text read as two titles, the second parted earlier: its parting is in the first's session. */
  lemma {:induction false} PartedEarlier(s: string, f: string, t: string, s': string, f': string, t': string)
    requires TitleField(f') && Clean(f') && |s'| < |s|
    requires s + [SEPARATOR] + (f + [SEPARATOR] + t) == s' + [SEPARATOR] + (f' + [SEPARATOR] + t')
    ensures HoldsTitleField(s + [SEPARATOR])
    ensures |s| >= |s'| + 1 + |f'|
  {
    hide TitleField;
    var text := s' + [SEPARATOR] + (f' + [SEPARATOR] + t');
    assert text[|s|] == SEPARATOR && text[|s'| + 1..|s'| + 1 + |f'|] == f';
    assert forall i :: |s'| < i < |s'| + 1 + |f'| ==> text[i] == f'[i - |s'| - 1] != SEPARATOR;
    var y := text[|s'| + 2 + |f'|..|s| + 1];
    assert s + [SEPARATOR] == text[..|s| + 1] == Framed(s', f', y);
  }

  /** And with the second parted later, in the first's text. */
  lemma {:induction false} PartedLater(s: string, f: string, t: string, s': string, f': string, t': string)
    requires TitleField(f) && Clean(f) && TitleField(f') && Clean(f') && |s| < |s'|
    requires s + [SEPARATOR] + (f + [SEPARATOR] + t) == s' + [SEPARATOR] + (f' + [SEPARATOR] + t')
    ensures HoldsTitleField([SEPARATOR] + t)
  {
    hide TitleField;
    PartedEarlier(s', f', t', s, f, t);
    var text, from := s + [SEPARATOR] + (f + [SEPARATOR] + t), |s| + 1 + |f|;
    var x := text[from..|s'|];
    assert text[|s'|..] == [SEPARATOR] + f' + [SEPARATOR] + t';
    assert text[from..] == x + text[|s'|..];
    assert [SEPARATOR] + t == text[from..] == Framed(x, f', t');
  }

  lemma {:induction false} TitleParses(s: string, f: string, t: string, s': string, f': string, t': string)
    requires TitleField(f) && TitleField(f') && Join([s, f, t]) == Join([s', f', t'])
    requires !HoldsTitleField(s + [SEPARATOR]) && !HoldsTitleField([SEPARATOR] + t)
    ensures s == s' && f == f' && t == t'
  {
    hide TitleField, Join, HoldsTitleField;
    FixedNamesClean(f);
    FixedNamesClean(f');
    JoinThree(s, f, t);
    JoinThree(s', f', t');
    if |s'| < |s| {
      PartedEarlier(s, f, t, s', f', t');
    } else if |s'| > |s| {
      PartedLater(s, f, t, s', f', t');
    } else {
      TextsSplit(s + [SEPARATOR], f + [SEPARATOR] + t, s' + [SEPARATOR], f' + [SEPARATOR] + t');
      TextsSplit(s, [SEPARATOR], s', [SEPARATOR]);
      CutAt(SEPARATOR, f, t, f', t');
    }
  }

  lemma TextsSplit(a: string, x: string, b: string, y: string)
    requires a + x == b + y && |a| == |b|
    ensures a == b && x == y
  {
    assert a == (a + x)[..|a|] && b == (b + y)[..|b|];
    assert x == (a + x)[|a|..] && y == (b + y)[|b|..];
  }

  /** Another key for a record whose texts are not telling. */
  lemma {:induction false} Mistaken(e: Envelope) returns (key: KeySource)
    requires Made(e.draft.key) && !Telling(e.draft.key)
    ensures Made(key) && key != e.draft.key && Meets(WithKey(e, key), e) && !key.WindowsKey?
  {
    hide Join, Clean, TitleField, ActionName;
    match e.draft.key
    case ClaudeMessage(s, u, n) =>
      var g := Resplit([s, u], if Clean(s) then 1 else 0);
      assert g == [g[0], g[1]];
      key := ClaudeMessage(g[0], g[1], n);
    case ClaudeTouch(s, u, r, x) =>
      var g := Resplit([s, u, r], if !Clean(s) then 0 else if !Clean(u) then 1 else 2);
      assert g == [g[0], g[1], g[2]];
      key := ClaudeTouch(g[0], g[1], g[2], x);
    case ClaudeSession(s, f, t) =>
      var sep := [SEPARATOR];
      JoinThree(s, f, t);
      if HoldsTitleField(s + sep) {
        var x, f', y :| TitleField(f') && s + sep == Framed(x, f', y);
        key := ClaudeSession(x, f', y + (f + sep + t));
        JoinThree(x, f', y + (f + sep + t));
        assert x + sep + (f' + sep + (y + (f + sep + t))) == Framed(x, f', y) + (f + sep + t)
            == s + sep + (f + sep + t);
        assert |Framed(x, f', y)| == |s| + 1;
      } else {
        var x, f', y :| TitleField(f') && sep + t == Framed(x, f', y);
        key := ClaudeSession(s + sep + f + x, f', y);
        JoinThree(s + sep + f + x, f', y);
        assert s + sep + (f + sep + t) == s + sep + f + (sep + t) == s + sep + f + Framed(x, f', y)
            == (s + sep + f + x) + sep + (f' + sep + y);
        assert |s + sep + f + x| > |s|;
      }
  }

  /** Window keys are their own across all devices. */
  lemma {:induction false} WindowKeysApart(a: Envelope, b: Envelope)
    requires a.draft.key.WindowsKey? && b.draft.key.WindowsKey?
    ensures Preimage(a) == Preimage(b) <==> a.device == b.device && Meets(a, b)
  {
    hide Dec, KindName, ProviderName, Join, Clean;
    if Preimage(a) == Preimage(b) {
      WindowDevices(a, b);
    }
    if a.device == b.device {
      MeetsExactly(a, b);
    }
  }

  lemma {:induction false} WindowDevices(a: Envelope, b: Envelope)
    requires a.draft.key.WindowsKey? && b.draft.key.WindowsKey? && Preimage(a) == Preimage(b)
    ensures a.device == b.device
  {
    hide Dec, KindName, ProviderName, Join, Clean;
    var name := ProviderName(Windows);
    var k, t, n := KindName(a.draft.kind), Dec(a.draft.ts), Dec(a.seqno);
    var k', t', n' := KindName(b.draft.kind), Dec(b.draft.ts), Dec(b.seqno);
    DecIsPlain(a.draft.ts);
    DecIsPlain(b.draft.ts);
    DecIsPlain(a.seqno);
    DecIsPlain(b.seqno);
    NamesDiffer(Windows, Windows, a.draft.kind, b.draft.kind);
    NamesDiffer(Windows, Windows, b.draft.kind, a.draft.kind);
    assert Fields(a) == [a.device, name, k, t] + [n] && Fields(b) == [b.device, name, k', t'] + [n'];
    LastFieldMeets([a.device, name, k, t], n, [b.device, name, k', t'], n');
    assert [a.device, name, k, t] == [a.device, name, k] + [t]
        && [b.device, name, k', t'] == [b.device, name, k'] + [t'];
    LastFieldMeets([a.device, name, k], t, [b.device, name, k'], t');
    assert [a.device, name, k] == [a.device, name] + [k] && [b.device, name, k'] == [b.device, name] + [k'];
    LastFieldMeets([a.device, name], k, [b.device, name], k');
    assert [a.device, name] == [a.device] + [name] && [b.device, name] == [b.device] + [name];
    LastFieldMeets([a.device], name, [b.device], name);
    JoinOne(a.device);
    JoinOne(b.device);
  }

  /** Browser and Claude keys hash neither the sequence number nor the time, so a record read
      again keeps its key; window keys with different numbers never meet. */
  lemma {:induction false} KeysFollowTheSource(a: Envelope, b: Envelope)
    ensures a.device == b.device && !a.draft.key.WindowsKey? && a.draft.key == b.draft.key ==>
        Preimage(a) == Preimage(b)
    ensures a.draft.key.WindowsKey? && b.draft.key.WindowsKey? && a.seqno != b.seqno ==> Preimage(a) != Preimage(b)
  {
    if a.draft.key.WindowsKey? && b.draft.key.WindowsKey? {
      WindowKeysApart(a, b);
    }
  }
}
