/** The record and cursor types every part of the pipeline exchanges (src/runtime/mod.rs). */
module Records {
  import opened Options

  type Byte = b: int | 0 <= b < 256

  datatype Provider = Windows | BrowserHistory | ClaudeCode

  datatype Kind =
    | Tick | Focus | StateChange | Lock | Unlock | Sleep | Wake
    | BufferOverflow | Visit | Message | Session | Touch

  datatype KeySource =
    | WindowsKey
    | BrowserVisit(profile: string, generation: nat, visitId: int)
    | ClaudeMessage(sessionId: string, uuid: string, block: nat)
    | ClaudeSession(sessionId: string, field: string, text: string)
    | ClaudeTouch(sessionId: string, uuid: string, repo: string, action: string)

  datatype Value =
    | Text(text: string)
    | Number(n: int)
    | Details(dropped: nat, droppedFrom: int, droppedTo: int)

  type Payload = map<string, Value>

  datatype RecordDraft = RecordDraft(
    provider: Provider,
    kind: Kind,
    ts: int,
    degraded: bool,
    payload: Payload,
    key: KeySource
  )

  /** A draft once the owner thread has given it a device and a sequence number. */
  datatype Envelope = Envelope(device: string, seqno: nat, draft: RecordDraft)

  /** Where a transcript reader stands: byte offset, carried message time, and whether the
      bytes from here to the next newline belong to a line over the cap. */
  datatype Mark = Mark(offset: nat, lastMessageTs: Option<int>, skipping: bool)

  datatype FileCursor = FileCursor(inode: nat, mark: Mark, head: Option<string>)

  datatype CursorKey = CursorKey(provider: Provider, key: string)

  /** A stored cursor value: a transcript position, or any other provider's text. */
  datatype CursorValue = TranscriptAt(at: FileCursor) | OtherText(text: string)

  datatype Cursor = Cursor(key: CursorKey, value: CursorValue)

  function TextLength(draft: RecordDraft): nat {
    if "text" in draft.payload && draft.payload["text"].Text? then |draft.payload["text"].text| else 0
  }

  function TextBytes(drafts: seq<RecordDraft>): nat {
    if drafts == [] then 0 else TextLength(drafts[0]) + TextBytes(drafts[1..])
  }
}
