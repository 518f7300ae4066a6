/** The text that is hashed for a dedup key, kind by kind (src/runtime/dedup.rs). */
module KeyForms {
  import opened Records
  import opened Keys

  /** What is hashed, written out: the device, the provider, for transcripts the kind, and what tells the
      source, with the unit separator between. */
  lemma {:induction false} PreimageForms(e: Envelope)
    ensures var s, k := ['\U{1f}'], e.draft.key;
            Preimage(e) == e.device + s +
            match k
            case WindowsKey =>
              "windows" + s + (KindName(e.draft.kind) + s + (Dec(e.draft.ts) + s + Dec(e.seqno)))
            case BrowserVisit(profile, generation, id) =>
              "browser_history" + s + (profile + s + (Dec(generation) + s + Dec(id)))
            case ClaudeMessage(session, uuid, block) =>
              "claude_code" + s + ("message" + s + (session + s + (uuid + s + Dec(block))))
            case ClaudeSession(session, field, text) =>
              "claude_code" + s + ("session" + s + (session + s + (field + s + text)))
            case ClaudeTouch(session, uuid, repo, action) =>
              "claude_code" + s + ("touch" + s + (session + s + (uuid + s + (repo + s + action))))
  {
    hide Dec, Join, KindName;
    match e.draft.key
    case WindowsKey =>
      JoinFive(e.device, "windows", KindName(e.draft.kind), Dec(e.draft.ts), Dec(e.seqno));
    case BrowserVisit(profile, generation, id) =>
      JoinFive(e.device, "browser_history", profile, Dec(generation), Dec(id));
    case ClaudeMessage(session, uuid, block) =>
      MessageName();
      JoinSix(e.device, "claude_code", "message", session, uuid, Dec(block));
    case ClaudeSession(session, field, text) =>
      MessageName();
      JoinSix(e.device, "claude_code", "session", session, field, text);
    case ClaudeTouch(session, uuid, repo, action) =>
      MessageName();
      JoinSeven(e.device, "claude_code", "touch", session, uuid, repo, action);
  }

  lemma MessageName()
    ensures KindName(Message) == "message" && KindName(Session) == "session" && KindName(Touch) == "touch"
  {
  }

  lemma JoinFive(a: string, b: string, c: string, d: string, e: string)
    ensures var s := [SEPARATOR];
            Join([a, b, c, d, e]) == a + s + (b + s + (c + s + (d + s + e)))
  {
    JoinUnfolds([a, b, c, d, e]);
    assert [a, b, c, d, e][1..] == [b] + [c, d, e];
    JoinConcat([b], [c, d, e]);
    JoinOne(b);
    JoinThree(c, d, e);
  }

  lemma JoinSix(a: string, b: string, c: string, d: string, e: string, f: string)
    ensures var s := [SEPARATOR];
            Join([a, b, c, d, e, f]) == a + s + (b + s + (c + s + (d + s + (e + s + f))))
  {
    hide Join;
    assert [a, b, c, d, e, f] == [a] + [b, c, d, e, f];
    JoinConcat([a], [b, c, d, e, f]);
    JoinOne(a);
    JoinFive(b, c, d, e, f);
  }

  lemma JoinSeven(a: string, b: string, c: string, d: string, e: string, f: string, g: string)
    ensures var s := [SEPARATOR];
            Join([a, b, c, d, e, f, g]) == a + s + (b + s + (c + s + (d + s + (e + s + (f + s + g)))))
  {
    hide Join;
    assert [a, b, c, d, e, f, g] == [a] + [b, c, d, e, f, g];
    JoinConcat([a], [b, c, d, e, f, g]);
    JoinOne(a);
    JoinSix(b, c, d, e, f, g);
  }

  lemma JoinUnfolds(f: seq<string>)
    requires f != []
    ensures Join(f) == if |f| == 1 then f[0] else f[0] + [SEPARATOR] + Join(f[1..])
  {
  }
}
