/** Which devices can send records that share a dedup key (src/runtime/dedup.rs). */
module Devices {
  import opened Records
  import opened Keys

  /** The names, visit or Claude, that open the text of a kind whose first own field is free. */
  ghost predicate OpenHeader(text: string) {
    exists key: KeySource :: !key.WindowsKey? && text == Join(Header(key))
  }

  /** A device name that goes on, after another name, like the text of a record. */
  ghost predicate Leads(device: string, other: string) {
    exists header, y :: OpenHeader(header) && other + [SEPARATOR] == device + [SEPARATOR] + header + [SEPARATOR] + y
  }

  ghost predicate DevicesMeet(device: string, other: string) {
    exists a: Envelope, b: Envelope :: a.device == device && b.device == other
      && Made(a.draft.key) && Made(b.draft.key) && Preimage(a) == Preimage(b)
  }

  /** A text parted at every separator. */
  lemma {:induction false} Parts(text: string) returns (parts: seq<string>)
    ensures parts != [] && Join(parts) == text && forall part :: part in parts ==> Clean(part)
  {
    if text == "" {
      return [""];
    }
    var rest := Parts(text[1..]);
    assert text == [text[0]] + text[1..];
    if text[0] == SEPARATOR {
      assert ([""] + rest)[1..] == rest;
      assert "" + [SEPARATOR] + text[1..] == text;
      return [""] + rest;
    }
    parts := [[text[0]] + rest[0]] + rest[1..];
    assert parts[1..] == rest[1..];
    if |rest| == 1 {
      assert parts == [text];
    } else {
      assert [text[0]] + (rest[0] + [SEPARATOR] + Join(rest[1..])) == parts[0] + [SEPARATOR] + Join(rest[1..]);
    }
    forall part | part in parts
      ensures Clean(part)
    {
      if part == parts[0] {
        assert rest[0] in rest;
      } else {
        assert part in rest;
      }
    }
  }

  /** A record of a shorter device name and one of a longer that share a text: the longer name goes
      on like the first record's text. */
  lemma {:induction false} MeetingLeads(a: Envelope, b: Envelope)
    requires |a.device| < |b.device| && Preimage(a) == Preimage(b)
    ensures Leads(a.device, b.device)
  {
    hide *;
    var sep, d, d' := [SEPARATOR], a.device, b.device;
    var header, own := Join(Header(a.draft.key)), Join(Rest(a));
    var other := Join(Header(b.draft.key)) + sep + Join(Rest(b));
    PreimageParts(a);
    PreimageParts(b);
    var t := NameGoesOn(d, header + sep + own, d', other);
    var y := HeaderGoesOn(a, b, t);
    assert d' + sep == d + sep + (t + sep) == d + sep + header + sep + y;
    LeadsBy(d, d', a.draft.key, y);
  }

  lemma LeadsBy(device: string, other: string, key: KeySource, y: string)
    requires !key.WindowsKey?
    requires other + [SEPARATOR] == device + [SEPARATOR] + Join(Header(key)) + [SEPARATOR] + y
    ensures Leads(device, other)
  {
    hide Join, Header;
    assert OpenHeader(Join(Header(key)));
  }

  lemma {:induction false} NameGoesOn(d: string, x: string, d': string, y: string) returns (t: string)
    requires |d| < |d'| && d + [SEPARATOR] + x == d' + [SEPARATOR] + y
    ensures d' == d + [SEPARATOR] + t && x == t + [SEPARATOR] + y
  {
    var text := d' + [SEPARATOR] + y;
    t := d'[|d| + 1..];
    assert d' == text[..|d'|] && (d + [SEPARATOR] + x)[|d|] == SEPARATOR == text[|d|] == d'[|d|];
    assert d == (d + [SEPARATOR] + x)[..|d|] == text[..|d|] == d'[..|d|];
    assert d' == d'[..|d|] + [d'[|d|]] + t;
    assert d' + [SEPARATOR] + y == d + [SEPARATOR] + (t + [SEPARATOR] + y);
    SamePrefix(d + [SEPARATOR], x, t + [SEPARATOR] + y);
  }

  /** What follows the shorter name is the whole header of its record, which is none of a window. */
  lemma {:induction false} HeaderGoesOn(a: Envelope, b: Envelope, t: string) returns (y: string)
    requires Join(Header(a.draft.key)) + [SEPARATOR] + Join(Rest(a))
          == t + [SEPARATOR] + (Join(Header(b.draft.key)) + [SEPARATOR] + Join(Rest(b)))
    ensures !a.draft.key.WindowsKey? && t + [SEPARATOR] == Join(Header(a.draft.key)) + [SEPARATOR] + y
  {
    hide Join, Header, Rest, Clean;
    var parts := Parts(t);
    var header, f, g := Header(a.draft.key), Header(a.draft.key) + Rest(a), parts + (Header(b.draft.key) + Rest(b));
    var k := |header|;
    JoinConcat(header, Rest(a));
    JoinConcat(Header(b.draft.key), Rest(b));
    JoinConcat(parts, Header(b.draft.key) + Rest(b));
    HeaderClean(a.draft.key);
    HeaderClean(b.draft.key);
    assert forall i :: 0 <= i < k ==> f[i] == header[i];
    var n := |parts|;
    assert g[..n] == parts && g[n] == Header(b.draft.key)[0];
    JoinHeads(f, g, if k <= n then k else 1);
    assert f[..k] == header;
    if k > n {
      JoinHeadAt(f, g, k, n);
      assert false;
    }
    assert g[..k] == parts[..k];
    assert parts == header + parts[k..];
    if a.draft.key.WindowsKey? {
      assert f[k..] == Rest(a) && g[k..] == parts[k..] + (Header(b.draft.key) + Rest(b));
      TooManyFields(a, b, parts[k..]);
      assert false;
    }
    if k == n {
      assert parts[k..] == [] && header + [] == header;
      return "";
    }
    JoinConcat(header, parts[k..]);
    y := Join(parts[k..]) + [SEPARATOR];
    assert Join(header) + [SEPARATOR] + Join(parts[k..]) + [SEPARATOR] == Join(header) + [SEPARATOR] + y;
  }

  lemma {:induction false} JoinHeadAt(f: seq<string>, g: seq<string>, k: nat, n: nat)
    requires n < k < |f| && k < |g| && Join(f) == Join(g)
    requires forall i :: 0 <= i < k ==> Clean(f[i]) && Clean(g[i])
    ensures f[n] == g[n]
  {
    hide Join, Clean;
    JoinHeads(f, g, k);
    assert f[..k][n] == g[..k][n];
  }

  /** The names of a header are free of the separator; a provider is named like no kind of record. */
  lemma {:induction false} HeaderClean(key: KeySource)
    ensures forall name :: name in Header(key) ==> Clean(name)
    ensures |Header(key)| == if ProviderOf(key) == ClaudeCode then 2 else 1
    ensures Header(key)[0] in {"windows", "browser_history", "claude_code"}
    ensures |Header(key)| == 2 ==> Header(key)[1] in {"message", "session", "touch"}
  {
    hide Clean;
    NamesDiffer(ProviderOf(key), ProviderOf(key), ClaudeKind(key), ClaudeKind(key));
    NamesDiffer(ClaudeCode, ClaudeCode, ClaudeKind(key), ClaudeKind(key));
  }

  lemma {:induction false} TooManyFields(a: Envelope, b: Envelope, parts: seq<string>)
    requires a.draft.key.WindowsKey?
    ensures Join(Rest(a)) != Join(parts + (Header(b.draft.key) + Rest(b)))
  {
    hide Join, Clean, Dec, KindName, ProviderName;
    DecIsPlain(a.draft.ts);
    DecIsPlain(a.seqno);
    NamesDiffer(Windows, Windows, a.draft.kind, a.draft.kind);
    JoinSeparators(Rest(a));
    JoinSeparators(parts + (Header(b.draft.key) + Rest(b)));
  }

  /** What a free field takes over of the name of another device. */
  lemma {:induction false} NameMoves(
      d: string, d': string, header: seq<string>, y: string, first: string, rest: seq<string>)
    requires header != [] && rest != []
    requires d' + [SEPARATOR] == d + [SEPARATOR] + Join(header) + [SEPARATOR] + y
    ensures d' + [SEPARATOR] + (Join(header) + [SEPARATOR] + Join([first] + rest))
         == d + [SEPARATOR] + (Join(header) + [SEPARATOR] + Join([y + Join(header) + [SEPARATOR] + first] + rest))
  {
    hide Join;
    var s, h, r := [SEPARATOR], Join(header), Join(rest);
    var moved := y + h + s + first;
    JoinConcat([first], rest);
    JoinConcat([moved], rest);
    JoinOne(first);
    JoinOne(moved);
    assert d' + s + (h + s + (first + s + r)) == (d + s + h + s + y) + (h + s + (first + s + r));
    assert (d + s + h + s + y) + (h + s + (first + s + r)) == d + s + (h + s + (moved + s + r));
  }

  function EnvelopeOf(device: string, key: KeySource): Envelope {
    Envelope(device, 0, RecordDraft(ProviderOf(key), ClaudeKind(key), 0, false, map[], key))
  }

  /** A key of the same kind with a given first field and plain others. */
  function Opening(key: KeySource, first: string): (r: KeySource)
    requires !key.WindowsKey?
    ensures Made(r) && !r.WindowsKey?
  {
    match key
    case BrowserVisit(_, _, _) => BrowserVisit(first, 0, 0)
    case ClaudeMessage(_, _, _) => ClaudeMessage(first, "", 0)
    case ClaudeSession(_, _, _) => ClaudeSession(first, "pr", "")
    case ClaudeTouch(_, _, _, _) => ClaudeTouch(first, "", "", "read")
  }

  lemma {:induction false} OpeningParts(key: KeySource, first: string, device: string) returns (rest: seq<string>)
    requires !key.WindowsKey?
    ensures Header(Opening(key, first)) == Header(key)
    ensures rest == Rest(EnvelopeOf(device, Opening(key, "")))[1..] && rest != []
    ensures Rest(EnvelopeOf(device, Opening(key, first))) == [first] + rest
  {
    hide Dec, Join, KindName, ProviderName;
    rest := Rest(EnvelopeOf("", Opening(key, "")))[1..];
  }

  /** A record of the shorter name that shares its text with one of the longer. */
  lemma {:induction false} LeadingMeets(device: string, other: string)
    requires Leads(device, other)
    ensures DevicesMeet(device, other)
  {
    hide Join, ProviderName, KindName, Preimage, Header, Dec, Rest, Fields, Made, Opening;
    var header, y :| OpenHeader(header) && other + [SEPARATOR] == device + [SEPARATOR] + header + [SEPARATOR] + y;
    var key: KeySource :| !key.WindowsKey? && header == Join(Header(key));
    var moved := y + header + [SEPARATOR] + "";
    var a, b := EnvelopeOf(device, Opening(key, moved)), EnvelopeOf(other, Opening(key, ""));
    var f := OpeningParts(key, moved, device);
    var g := OpeningParts(key, "", other);
    SameTail(key, device, other);
    PreimageParts(a);
    PreimageParts(b);
    NameMoves(device, other, Header(key), y, "", g);
    assert Preimage(a) == Preimage(b);
  }

  lemma SameTail(key: KeySource, device: string, other: string)
    requires !key.WindowsKey?
    ensures Rest(EnvelopeOf(device, Opening(key, ""))) == Rest(EnvelopeOf(other, Opening(key, "")))
  {
    hide Dec, KindName, ProviderName;
  }

  /** Two devices can send records that share a key exactly when the name of one goes on, after the
      name of the other, like the text of a record. Names without the separator never do. */
  lemma {:induction false} DevicesMeetExactly(device: string, other: string)
    requires device != other
    ensures DevicesMeet(device, other) <==> Leads(device, other) || Leads(other, device)
    ensures Clean(device) && Clean(other) ==> !DevicesMeet(device, other)
  {
    hide Preimage, Made, Leads, OpenHeader;
    if DevicesMeet(device, other) {
      var a: Envelope, b: Envelope :| a.device == device && b.device == other
        && Made(a.draft.key) && Made(b.draft.key) && Preimage(a) == Preimage(b);
      if |device| == |other| {
        EqualLengths(a, b);
      }
      if |device| < |other| {
        MeetingLeads(a, b);
      } else {
        MeetingLeads(b, a);
      }
    }
    if Leads(device, other) {
      LeadingMeets(device, other);
      LeadsUnclean(device, other);
    } else if Leads(other, device) {
      LeadingMeets(other, device);
      LeadsUnclean(other, device);
      MeetSwaps(other, device);
    }
  }

  lemma {:induction false} MeetSwaps(device: string, other: string)
    requires DevicesMeet(device, other)
    ensures DevicesMeet(other, device)
  {
  }

  lemma {:induction false} EqualLengths(a: Envelope, b: Envelope)
    requires Preimage(a) == Preimage(b) && |a.device| == |b.device|
    ensures a.device == b.device
  {
    hide *;
    PreimageParts(a);
    PreimageParts(b);
    var x := Join(Header(a.draft.key)) + [SEPARATOR] + Join(Rest(a));
    var y := Join(Header(b.draft.key)) + [SEPARATOR] + Join(Rest(b));
    TextsSplit(a.device + [SEPARATOR], x, b.device + [SEPARATOR], y);
    TextsSplit(a.device, [SEPARATOR], b.device, [SEPARATOR]);
  }

  lemma {:induction false} LeadsUnclean(device: string, other: string)
    requires Leads(device, other)
    ensures !Clean(other)
  {
    hide OpenHeader;
    var header, y :| OpenHeader(header) && other + [SEPARATOR] == device + [SEPARATOR] + header + [SEPARATOR] + y;
    assert (other + [SEPARATOR])[|device|] == SEPARATOR;
    assert |other| > |device|;
    assert other[|device|] == SEPARATOR;
  }
}
