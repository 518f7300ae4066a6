/** Parsing the KERN_PROCARGS2 buffer (src/macos/processes.rs): an argument count, the executable
    path with its padding, then nul-terminated arguments and environment entries. Strings stay
    bytes here. */
module Procargs {
  import opened Options
  import opened Records

  type Bytes = seq<Byte>

  const EQUALS: Byte := 61

  datatype ProcessArgs = ProcessArgs(argv: seq<Bytes>, env: map<Bytes, Bytes>)

  /** The first nul at or after `from`, or the length. */
  function NulAt(buffer: Bytes, from: nat): (n: nat)
    requires from <= |buffer|
    ensures from <= n <= |buffer| && (forall i :: from <= i < n ==> buffer[i] != 0) && (n < |buffer| ==> buffer[n] == 0)
    decreases |buffer| - from
  {
    if from == |buffer| || buffer[from] == 0 then from else NulAt(buffer, from + 1)
  }

  /** The first byte that is not nul at or after `from`, or the length. */
  function PastNuls(buffer: Bytes, from: nat): (n: nat)
    requires from <= |buffer|
    ensures from <= n <= |buffer| && (forall i :: from <= i < n ==> buffer[i] == 0) && (n < |buffer| ==> buffer[n] != 0)
    decreases |buffer| - from
  {
    if from == |buffer| || buffer[from] != 0 then from else PastNuls(buffer, from + 1)
  }

  /** A little-endian i32. */
  function Count(buffer: Bytes): int
    requires |buffer| >= 4
  {
    var (a: int, b: int, c: int, d: int) := (buffer[0], buffer[1], buffer[2], buffer[3]);
    var n := a + 0x100 * b + 0x1_0000 * c + 0x100_0000 * d;
    if n >= 0x8000_0000 then n - 0x1_0000_0000 else n
  }

  /** The nul-terminated strings from `from` on; an unterminated rest is no string. */
  function Strings(buffer: Bytes, from: nat): seq<Bytes>
    requires from <= |buffer|
    decreases |buffer| - from
  {
    var n := NulAt(buffer, from);
    if n == |buffer| then [] else [buffer[from..n]] + Strings(buffer, n + 1)
  }

  /** The entries before the first empty one. */
  function UpToEmpty(entries: seq<Bytes>): seq<Bytes> {
    if entries == [] || entries[0] == [] then [] else [entries[0]] + UpToEmpty(entries[1..])
  }

  function EqualsAt(entry: Bytes, from: nat): (n: nat)
    requires from <= |entry|
    ensures from <= n <= |entry| && (forall i :: from <= i < n ==> entry[i] != EQUALS)
        && (n < |entry| ==> entry[n] == EQUALS)
    decreases |entry| - from
  {
    if from == |entry| || entry[from] == EQUALS then from else EqualsAt(entry, from + 1)
  }

  /** An entry split at its first equals sign. */
  function Split(entry: Bytes): Option<(Bytes, Bytes)> {
    var n := EqualsAt(entry, 0);
    if n == |entry| then None else Some((entry[..n], entry[n + 1..]))
  }

  function Put(env: map<Bytes, Bytes>, entry: Bytes): map<Bytes, Bytes> {
    match Split(entry)
    case None => env
    case Some((key, value)) => env[key := value]
  }

  function EnvOf(entries: seq<Bytes>): map<Bytes, Bytes> {
    if entries == [] then map[] else Put(EnvOf(entries[..|entries| - 1]), entries[|entries| - 1])
  }

  /** Where the arguments begin: past the executable path and every nul after it. */
  function ArgsAt(buffer: Bytes): (n: nat)
    requires |buffer| >= 4
    ensures n <= |buffer|
  {
    PastNuls(buffer, NulAt(buffer, 4))
  }

  /** Arguments by their count, then the environment up to an empty entry. */
  function Parsed(buffer: Bytes): ProcessArgs {
    if |buffer| < 4 then ProcessArgs([], map[])
    else
      var strings := Strings(buffer, ArgsAt(buffer));
      var argc := if Count(buffer) < 0 then 0 else Count(buffer);
      if |strings| < argc then ProcessArgs(strings, map[])
      else ProcessArgs(strings[..argc], EnvOf(UpToEmpty(strings[argc..])))
  }

  /** The next string and the cursor past it. */
  method NextString(buffer: Bytes, cursor: nat) returns (text: Option<Bytes>, next: nat)
    requires cursor <= |buffer|
    ensures cursor <= next <= |buffer|
    ensures text.None? ==> Strings(buffer, cursor) == []
    ensures text.Some? ==> cursor < next && Strings(buffer, cursor) == [text.value] + Strings(buffer, next)
  {
    if cursor >= |buffer| {
      return None, cursor;
    }
    var end := cursor;
    while end < |buffer| && buffer[end] != 0
      invariant cursor <= end <= NulAt(buffer, cursor)
    {
      end := end + 1;
    }
    assert end == NulAt(buffer, cursor);
    if end == |buffer| {
      return None, |buffer|;
    }
    return Some(buffer[cursor..end]), end + 1;
  }

  /** Passes the executable path and the nuls after it. */
  method SkipExecutable(buffer: Bytes) returns (cursor: nat)
    requires |buffer| >= 4
    ensures cursor == ArgsAt(buffer)
  {
    cursor := 4;
    while cursor < |buffer| && buffer[cursor] != 0
      invariant 4 <= cursor <= NulAt(buffer, 4)
    {
      cursor := cursor + 1;
    }
    ghost var nul := cursor;
    while cursor < |buffer| && buffer[cursor] == 0
      invariant nul == NulAt(buffer, 4) && nul <= cursor <= PastNuls(buffer, nul)
    {
      cursor := cursor + 1;
    }
  }

  /** Takes strings until the count is met or there are no more. */
  method TakeArguments(buffer: Bytes, argc: nat, from: nat) returns (argv: seq<Bytes>, cursor: nat, complete: bool)
    requires from <= |buffer|
    ensures cursor <= |buffer| && complete == (|Strings(buffer, from)| >= argc)
    ensures if complete then |argv| == argc && Strings(buffer, from) == argv + Strings(buffer, cursor)
        else argv == Strings(buffer, from)
  {
    hide Strings;
    argv, cursor := [], from;
    while |argv| < argc
      invariant |argv| <= argc && cursor <= |buffer|
      invariant Strings(buffer, from) == argv + Strings(buffer, cursor)
      decreases argc - |argv|
    {
      var text;
      text, cursor := NextString(buffer, cursor);
      if text.None? {
        return argv, cursor, false;
      }
      assert argv + ([text.value] + Strings(buffer, cursor)) == (argv + [text.value]) + Strings(buffer, cursor);
      argv := argv + [text.value];
    }
    complete := true;
  }

  /** Collects entries until one is empty or there are no more. */
  method TakeEnvironment(buffer: Bytes, from: nat) returns (env: map<Bytes, Bytes>)
    requires from <= |buffer|
    ensures env == EnvOf(UpToEmpty(Strings(buffer, from)))
  {
    hide Strings, Split;
    env := map[];
    var cursor := from;
    ghost var taken: seq<Bytes> := [];
    while true
      invariant cursor <= |buffer|
      invariant UpToEmpty(Strings(buffer, from)) == taken + UpToEmpty(Strings(buffer, cursor))
      invariant env == EnvOf(taken)
      decreases |buffer| - cursor
    {
      var text, next := NextString(buffer, cursor);
      if text.None? || text.value == [] {
        assert taken + [] == taken;
        return;
      }
      ghost var rest := Strings(buffer, next);
      assert ([text.value] + rest)[1..] == rest;
      assert taken + ([text.value] + UpToEmpty(rest)) == (taken + [text.value]) + UpToEmpty(rest);
      assert (taken + [text.value])[..|taken|] == taken;
      taken := taken + [text.value];
      cursor, env := next, Put(env, text.value);
    }
  }

  /** On any bytes the parse ends within the buffer, with what its layout says. */
  method ParseProcargs(buffer: Bytes) returns (args: ProcessArgs)
    ensures args == Parsed(buffer)
  {
    if |buffer| < 4 {
      return ProcessArgs([], map[]);
    }
    var argc := if Count(buffer) < 0 then 0 else Count(buffer);
    var from := SkipExecutable(buffer);
    var argv, cursor, complete := TakeArguments(buffer, argc, from);
    if !complete {
      return ProcessArgs(argv, map[]);
    }
    assert Strings(buffer, from)[argc..] == Strings(buffer, cursor);
    var env := TakeEnvironment(buffer, cursor);
    args := ProcessArgs(argv, env);
  }

  // ---- Round trip ----

  predicate NulFree(text: Bytes) { forall b :: b in text ==> b != 0 }

  function Flat(strings: seq<Bytes>): Bytes {
    if strings == [] then [] else strings[0] + [0] + Flat(strings[1..])
  }

  function Zeros(n: nat): Bytes { seq(n, _ => 0) }

  function CountBytes(argc: nat): (bytes: Bytes)
    requires argc < 0x8000_0000
    ensures |bytes| == 4
  {
    [argc % 0x100, argc / 0x100 % 0x100, argc / 0x100 / 0x100 % 0x100, argc / 0x100 / 0x100 / 0x100]
  }

  /** The layout the kernel fills the buffer with; `tail` is whatever follows the entries. */
  function Encode(exe: Bytes, padding: nat, argv: seq<Bytes>, env: seq<Bytes>, tail: Bytes): Bytes
    requires |argv| < 0x8000_0000
  {
    Preamble(|argv|, exe, padding) + Flat(argv + env) + tail
  }

  /** The count, the executable path and its padding. */
  function Preamble(argc: nat, exe: Bytes, padding: nat): Bytes
    requires argc < 0x8000_0000
  {
    CountBytes(argc) + (exe + [0] + Zeros(padding))
  }

  lemma {:induction false} CountReads(argc: nat, rest: Bytes)
    requires argc < 0x8000_0000
    ensures Count(CountBytes(argc) + rest) == argc
  {
    var buffer, bytes := CountBytes(argc) + rest, CountBytes(argc);
    assert buffer[0] == bytes[0] && buffer[1] == bytes[1] && buffer[2] == bytes[2] && buffer[3] == bytes[3];
  }

  /** Strings laid out flat are read back, then whatever comes after them. */
  lemma {:induction false} FlatReads(strings: seq<Bytes>, tail: Bytes)
    requires forall s :: s in strings ==> NulFree(s)
    ensures Strings(Flat(strings) + tail, 0) == strings + Strings(tail, 0)
    decreases |strings|
  {
    hide Strings, NulAt, NulFree;
    if strings == [] {
      assert Flat(strings) + tail == tail;
    } else {
      var s := strings[0];
      assert s in strings && forall t :: t in strings[1..] ==> t in strings;
      FlatReads(strings[1..], tail);
      Regroup(s + [0], Flat(strings[1..]), tail);
      FirstString(s, Flat(strings[1..]) + tail);
      assert strings == [s] + strings[1..];
    }
  }

  lemma {:induction false} FirstString(s: Bytes, more: Bytes)
    requires NulFree(s)
    ensures Strings((s + [0]) + more, 0) == [s] + Strings(more, 0)
  {
    hide NulAt, NulFree;
    var buffer := (s + [0]) + more;
    NulEnds(s, more);
    assert buffer[0..|s|] == s;
    StringsShift(s + [0], more, 0);
  }

  lemma {:induction false} NulEnds(s: Bytes, more: Bytes)
    requires NulFree(s)
    ensures NulAt((s + [0]) + more, 0) == |s|
  {
    hide NulAt;
    var buffer := (s + [0]) + more;
    assert buffer[|s|] == 0;
    forall i | 0 <= i < |s|
      ensures buffer[i] != 0
    {
      assert buffer[i] == s[i] && s[i] in s;
    }
  }

  lemma {:induction false} NulShift(before: Bytes, buffer: Bytes, from: nat)
    requires from <= |buffer|
    ensures NulAt(before + buffer, |before| + from) == |before| + NulAt(buffer, from)
    decreases |buffer| - from
  {
    if from < |buffer| {
      assert (before + buffer)[|before| + from] == buffer[from];
      NulShift(before, buffer, from + 1);
    }
  }

  lemma SliceShift(before: Bytes, buffer: Bytes, from: nat, to: nat)
    requires from <= to <= |buffer|
    ensures (before + buffer)[|before| + from..|before| + to] == buffer[from..to]
  {
  }

  lemma Regroup(a: Bytes, b: Bytes, c: Bytes)
    ensures (a + b) + c == a + (b + c)
  {
  }

  lemma {:induction false} StringsShift(before: Bytes, buffer: Bytes, from: nat)
    requires from <= |buffer|
    ensures Strings(before + buffer, |before| + from) == Strings(buffer, from)
    decreases |buffer| - from
  {
    hide NulAt;
    var n := NulAt(buffer, from);
    NulShift(before, buffer, from);
    if n < |buffer| {
      SliceShift(before, buffer, from, n);
      StringsShift(before, buffer, n + 1);
    }
  }

  /** The strings after a preamble begin right behind it, when the first of them is not empty. */
  lemma {:induction false} PreambleEnds(argc: nat, exe: Bytes, padding: nat, rest: Bytes)
    requires argc < 0x8000_0000 && NulFree(exe) && rest != [] && rest[0] != 0
    ensures ArgsAt(Preamble(argc, exe, padding) + rest) == |Preamble(argc, exe, padding)|
  {
    hide NulAt, PastNuls, CountBytes, NulFree;
    var count, padded, before := CountBytes(argc), Zeros(padding) + rest, Preamble(argc, exe, padding);
    var buffer := before + rest;
    Regroup(count, exe + [0] + Zeros(padding), rest);
    Regroup(exe + [0], Zeros(padding), rest);
    assert buffer == count + ((exe + [0]) + padded);
    NulEnds(exe, padded);
    NulShift(count, (exe + [0]) + padded, 0);
    assert NulAt(buffer, 4) == 4 + |exe|;
    assert forall i :: 4 + |exe| <= i < |before| ==> buffer[i] == before[i] == 0;
    assert buffer[|before|] == rest[0];
    PastNulsAt(buffer, 4 + |exe|, |before|);
  }

  lemma PastNulsAt(buffer: Bytes, from: nat, to: nat)
    requires from <= to < |buffer| && buffer[to] != 0 && forall i :: from <= i < to ==> buffer[i] == 0
    ensures PastNuls(buffer, from) == to
  {
    hide PastNuls;
  }

  lemma {:induction false} FlatBegins(strings: seq<Bytes>, tail: Bytes)
    requires strings != [] && strings[0] != [] && NulFree(strings[0])
    ensures var rest := Flat(strings) + tail;
            rest != [] && rest[0] != 0
  {
    assert strings[0][0] in strings[0];
  }

  lemma {:induction false} EncodedStrings(exe: Bytes, padding: nat, argv: seq<Bytes>, env: seq<Bytes>, tail: Bytes)
    requires |argv| < 0x8000_0000 && NulFree(exe) && forall s :: s in argv + env ==> NulFree(s)
    requires argv + env != [] && (argv + env)[0] != []
    ensures var buffer := Encode(exe, padding, argv, env, tail);
            Strings(buffer, ArgsAt(buffer)) == argv + env + Strings(tail, 0)
  {
    hide NulAt, PastNuls, Strings, Flat, Preamble, ArgsAt, NulFree;
    var strings := argv + env;
    assert strings[0] in strings;
    FlatBegins(strings, tail);
    var before, rest := Preamble(|argv|, exe, padding), Flat(strings) + tail;
    Regroup(before, Flat(strings), tail);
    PreambleEnds(|argv|, exe, padding, rest);
    StringsShift(before, rest, 0);
    FlatReads(strings, tail);
  }

  lemma {:induction false} EncodedCount(exe: Bytes, padding: nat, argv: seq<Bytes>, env: seq<Bytes>, tail: Bytes)
    requires |argv| < 0x8000_0000
    ensures var buffer := Encode(exe, padding, argv, env, tail);
            |buffer| >= 4 && Count(buffer) == |argv|
  {
    hide CountBytes, Count, Flat;
    var after := exe + [0] + Zeros(padding);
    Regroup(CountBytes(|argv|) + after, Flat(argv + env), tail);
    Regroup(CountBytes(|argv|), after, Flat(argv + env) + tail);
    CountReads(|argv|, after + (Flat(argv + env) + tail));
  }

  lemma {:induction false} UpToEmptyStops(entries: seq<Bytes>, rest: seq<Bytes>)
    requires [] !in entries && (rest == [] || rest[0] == [])
    ensures UpToEmpty(entries + rest) == entries
  {
    if entries == [] {
      assert entries + rest == rest;
    } else {
      assert (entries + rest)[1..] == entries[1..] + rest;
      UpToEmptyStops(entries[1..], rest);
    }
  }

  lemma {:induction false} TailStops(tail: Bytes)
    requires tail == [] || tail[0] == 0
    ensures Strings(tail, 0) == [] || Strings(tail, 0)[0] == []
  {
    assert tail != [] ==> tail[0..0] == [];
  }

  /** What was laid out is parsed back: the arguments, and the entries up to the end or to an
      empty one, after which anything may follow. */
  lemma {:induction false} RoundTrip(exe: Bytes, padding: nat, argv: seq<Bytes>, env: seq<Bytes>, tail: Bytes)
    requires |argv| < 0x8000_0000 && NulFree(exe) && forall s :: s in argv + env ==> NulFree(s)
    requires argv + env != [] && (argv + env)[0] != [] && [] !in env && (tail == [] || tail[0] == 0)
    ensures Parsed(Encode(exe, padding, argv, env, tail)) == ProcessArgs(argv, EnvOf(env))
  {
    hide NulAt, PastNuls, Strings, Count, Encode, EnvOf, UpToEmpty, NulFree, ArgsAt;
    var after := Strings(tail, 0);
    TailStops(tail);
    var buffer := Encode(exe, padding, argv, env, tail);
    EncodedStrings(exe, padding, argv, env, tail);
    EncodedCount(exe, padding, argv, env, tail);
    var strings := argv + env + after;
    assert strings[..|argv|] == argv && strings[|argv|..] == env + after;
    UpToEmptyStops(env, after);
  }

  /** The first argument must not be empty: its nul is taken for padding otherwise. */
  lemma {:induction false} FirstArgumentExactly(
      exe: Bytes, padding: nat, argv: seq<Bytes>, env: seq<Bytes>, tail: Bytes)
    requires |argv| < 0x8000_0000 && NulFree(exe) && forall s :: s in argv + env ==> NulFree(s)
    requires argv != []
    ensures Parsed(Encode(exe, padding, argv, env, tail)).argv == argv <==> argv[0] != []
  {
    hide PastNuls, NulAt, Encode, Count, EnvOf, UpToEmpty, NulFree;
    var buffer := Encode(exe, padding, argv, env, tail);
    EncodedCount(exe, padding, argv, env, tail);
    if argv[0] != [] {
      EncodedStrings(exe, padding, argv, env, tail);
      assert (argv + env + Strings(tail, 0))[..|argv|] == argv;
    } else {
      var at := ArgsAt(buffer);
      var strings := Strings(buffer, at);
      assert strings != [] ==> strings[0] == buffer[at..NulAt(buffer, at)];
    }
  }

  /** A variable's value is that of its last entry, and there is one only if some entry sets it. */
  lemma {:induction false} LaterEntriesWin(entries: seq<Bytes>, key: Bytes)
    ensures key in EnvOf(entries) <==> exists i :: 0 <= i < |entries| && Sets(entries[i], key)
    ensures forall i :: (0 <= i < |entries| && Sets(entries[i], key)
                         && forall j :: i < j < |entries| ==> !Sets(entries[j], key)) ==>
              EnvOf(entries)[key] == Split(entries[i]).value.1
  {
    hide Split;
    if entries != [] {
      var front, last := entries[..|entries| - 1], |entries| - 1;
      LaterEntriesWin(front, key);
      assert forall i :: 0 <= i < last ==> front[i] == entries[i];
      if Sets(entries[last], key) {
        assert key in EnvOf(entries);
      } else if key in EnvOf(front) {
        var i :| 0 <= i < |front| && Sets(front[i], key);
        assert Sets(entries[i], key);
      }
    }
  }

  /** An entry is its key, the first equals sign, and its value; without the sign it is none. */
  lemma {:induction false} SplitExactly(entry: Bytes, key: Bytes, value: Bytes)
    ensures Split(entry) == Some((key, value)) <==> 61 !in key && entry == key + [61] + value
    ensures Split(entry) == None <==> 61 !in entry
  {
    var n := EqualsAt(entry, 0);
    if n < |entry| {
      assert entry == entry[..n] + [EQUALS] + entry[n + 1..] && entry[n] in entry;
    }
    if EQUALS !in key && entry == key + [EQUALS] + value {
      assert entry[|key|] == EQUALS && forall i :: 0 <= i < |key| ==> entry[i] == key[i] != EQUALS;
      assert n == |key| && entry[..n] == key && entry[n + 1..] == value;
    }
  }

  /** A buffer that ends before the counted arguments gives those there are and no environment; one
      too short for a count gives nothing. */
  lemma {:induction false} CutShort(exe: Bytes, padding: nat, argc: nat, argv: seq<Bytes>, tail: Bytes)
    requires argc < 0x8000_0000 && NulFree(exe) && (forall s :: s in argv ==> NulFree(s)) && NulFree(tail)
    requires argv != [] && argv[0] != [] && |argv| < argc
    ensures Parsed(Preamble(argc, exe, padding) + (Flat(argv) + tail)) == ProcessArgs(argv, map[])
    ensures forall buffer: Bytes :: |buffer| < 4 ==> Parsed(buffer) == ProcessArgs([], map[])
  {
    hide NulAt, PastNuls, Strings, Flat, NulFree, ArgsAt, Count, CountBytes;
    var before, rest := Preamble(argc, exe, padding), Flat(argv) + tail;
    assert argv[0] in argv;
    FlatBegins(argv, tail);
    PreambleEnds(argc, exe, padding, rest);
    StringsShift(before, rest, 0);
    FlatReads(argv, tail);
    NoStrings(tail);
    assert argv + [] == argv;
    var after := exe + [0] + Zeros(padding);
    Regroup(CountBytes(argc), after, rest);
    CountReads(argc, after + rest);
  }

  lemma {:induction false} NoStrings(tail: Bytes)
    requires NulFree(tail)
    ensures Strings(tail, 0) == []
  {
    assert forall i :: 0 <= i < |tail| ==> tail[i] in tail;
  }

  /** A negative count, in two's complement, stands for no arguments: all strings are environment. */
  lemma {:induction false} NegativeCount(buffer: Bytes)
    requires |buffer| >= 4
    ensures Count(buffer) < 0 <==> buffer[3] >= 0x80
    ensures buffer[3] >= 0x80 ==> Parsed(buffer) == ProcessArgs([], EnvOf(UpToEmpty(Strings(buffer, ArgsAt(buffer)))))
  {
    hide Strings, ArgsAt, EnvOf, UpToEmpty;
    if buffer[3] >= 0x80 {
      var strings := Strings(buffer, ArgsAt(buffer));
      assert strings[0..] == strings && strings[..0] == [];
    }
  }

  predicate Sets(entry: Bytes, key: Bytes) { Split(entry).Some? && Split(entry).value.0 == key }
}