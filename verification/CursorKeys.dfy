/** The keys cursors are stored under (src/providers/claude_code.rs). */
module CursorKeys {
  import opened Options
  import opened Keys

  /** The key a transcript's cursor is stored under: an import names its device by a length, so
      that no device name can run into the path. */
  function TranscriptKey(path: string, device: Option<string>): string {
    match device
    case Some(d) => "import-file:" + Dec(|d|) + ":" + d + ":" + path
    case None => path
  }

  function PullKey(device: string): string { "import-pull:" + device }

  /** A local transcript has an absolute path. */
  predicate Tracked(path: string, device: Option<string>) {
    device.None? ==> path != "" && path[0] == '/'
  }

  lemma {:induction false} ImportKeysDiffer(path: string, device: string, path': string, device': string)
    requires TranscriptKey(path, Some(device)) == TranscriptKey(path', Some(device'))
    ensures path == path' && device == device'
  {
    var tail, tail' := device + ":" + path, device' + ":" + path';
    var key, key' := Dec(|device|) + [':'] + tail, Dec(|device'|) + [':'] + tail';
    assert TranscriptKey(path, Some(device)) == "import-file:" + key
        && TranscriptKey(path', Some(device')) == "import-file:" + key';
    assert key == ("import-file:" + key)[12..] && key' == ("import-file:" + key')[12..];
    DecIsPlain(|device|);
    DecIsPlain(|device'|);
    CutAt(':', Dec(|device|), tail, Dec(|device'|), tail');
    DecInjective(|device|, |device'|);
    assert device == tail[..|device|] && device' == tail'[..|device|];
    assert path == tail[|device| + 1..] && path' == tail'[|device| + 1..];
  }

  /** Cursor keys are one-to-one over device and path, and never a pull key. */
  lemma {:induction false} CursorKeysDiffer(
      path: string, device: Option<string>, path': string, device': Option<string>, other: string)
    requires Tracked(path, device) && Tracked(path', device')
    ensures TranscriptKey(path, device) == TranscriptKey(path', device') <==> path == path' && device == device'
    ensures TranscriptKey(path, device) != PullKey(other)
    ensures PullKey(other) == PullKey(path) <==> other == path
  {
    var key, key' := TranscriptKey(path, device), TranscriptKey(path', device');
    assert "import-file:"[0] == "import-pull:"[0] == 'i' && "import-file:"[7] == 'f' && "import-pull:"[7] == 'p';
    assert PullKey(other)[0] == 'i' && PullKey(other)[7] == 'p';
    assert PullKey(other)[12..] == other && PullKey(path)[12..] == path;
    if device.Some? {
      assert key[0] == 'i' && key[7] == 'f';
    }
    if device'.Some? {
      assert key'[0] == 'i';
    }
    if key == key' && device.Some? && device'.Some? {
      ImportKeysDiffer(path, device.value, path', device'.value);
    }
  }
}
