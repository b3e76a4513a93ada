/** The background loop that streams `adb logcat` (crates/pane-android/src/logcat.rs, `spawn`).

    Everything it waits for is an input: the end of a back-off sleep, the result of
    spawning adb, a completed read, a timer tick that cancels a read half way, end of file, a read
    error, shutdown. Decoding and parsing one line is the parameter `parse`. */
module LogcatStream {
  import opened Text

  type Byte = b: nat | b < 256

  const NEWLINE: Byte := 10

  datatype Entry = Entry(timestamp: string, pid: nat, tid: nat, level: nat, tag: string, message: string)

  type Parser = seq<Byte> -> Option<Entry>

  datatype Config = Config(batchSize: nat, maxReconnects: nat)

  datatype Event = Batch(entries: seq<Entry>) | GaveUp

  /** `bytes` are what the read at hand had moved into the line buffer by then. */
  datatype Input =
    | Slept
    | SpawnFails | NoStdout | Connected
    | Chunk(bytes: seq<Byte>) | Tick(bytes: seq<Byte>) | Eof | ReadError(bytes: seq<Byte>)
    | Shutdown(bytes: seq<Byte>)

  datatype Phase = Backoff | Connecting | Streaming | Stopped

  /** `read`, `ended` and `base` describe the current connection: the bytes received, whether a
      final line without newline was completed, and how many events preceded it. `waited` is the
      time slept in the current streak of failures, in milliseconds. */
  datatype State = State(
    phase: Phase, attempt: nat, batch: seq<Entry>, lineBuf: seq<Byte>, events: seq<Event>,
    read: seq<Byte>, ended: bool, base: nat, waited: nat)

  const START := State(Connecting, 0, [], [], [], [], false, 0, 0)

  function BackoffFor(attempt: nat): nat {
    match attempt
    case 1 => 500
    case 2 => 1_000
    case 3 => 2_000
    case 4 => 5_000
    case _ => 10_000
  }

  function Flush(events: seq<Event>, batch: seq<Entry>): seq<Event> {
    if batch == [] then events else events + [Batch(batch)]
  }

  predicate Failure(i: Input) {
    i.SpawnFails? || i.NoStdout? || i.Eof? || i.ReadError?
  }

  /** `read_until` completes at the first newline or at the end of the stream. */
  predicate Enabled(s: State, i: Input) {
    match s.phase
    case Backoff => i.Slept? || i == Shutdown([])
    case Connecting => i.SpawnFails? || i.NoStdout? || i.Connected?
    case Streaming =>
      match i {
        case Chunk(bytes) => bytes != [] && !s.ended && NEWLINE !in bytes[..|bytes| - 1]
        case Tick(bytes) => NEWLINE !in bytes && (s.ended ==> bytes == [])
        case ReadError(bytes) => NEWLINE !in bytes && (s.ended ==> bytes == [])
        case Shutdown(bytes) => NEWLINE !in bytes && (s.ended ==> bytes == [])
        case Eof => true
        case _ => false
      }
    case Stopped => false
  }

  function Push(parse: Parser, batch: seq<Entry>, line: seq<Byte>): seq<Entry> {
    match parse(line)
    case Some(e) => batch + [e]
    case None => batch
  }

  function Next(cfg: Config, parse: Parser, s: State, i: Input): State {
    match i
    case Slept =>
      var t := s.(waited := s.waited + BackoffFor(s.attempt));
      if s.attempt > cfg.maxReconnects then t.(phase := Stopped, events := s.events + [GaveUp])
      else t.(phase := Connecting)
    case SpawnFails => s.(phase := Backoff, attempt := s.attempt + 1)
    case NoStdout => s.(phase := Backoff, attempt := s.attempt + 1)
    case Connected => State(Streaming, 0, [], [], s.events, [], false, |s.events|, 0)
    case Chunk(bytes) =>
      var batch := Push(parse, s.batch, s.lineBuf + bytes);
      var full := parse(s.lineBuf + bytes).Some? && |batch| >= cfg.batchSize;
      s.(batch := if full then [] else batch,
         events := if full then s.events + [Batch(batch)] else s.events,
         lineBuf := [], read := s.read + bytes, ended := bytes == [] || bytes[|bytes| - 1] != NEWLINE)
    case Tick(bytes) =>
      s.(batch := [], events := Flush(s.events, s.batch), lineBuf := s.lineBuf + bytes, read := s.read + bytes)
    case Eof =>
      s.(phase := Backoff, attempt := s.attempt + 1, batch := [], events := Flush(s.events, s.batch))
    case ReadError(bytes) =>
      s.(phase := Backoff, attempt := s.attempt + 1, batch := [], events := Flush(s.events, s.batch),
         lineBuf := s.lineBuf + bytes, read := s.read + bytes)
    case Shutdown(bytes) =>
      s.(phase := Stopped, batch := [], events := Flush(s.events, s.batch),
         lineBuf := s.lineBuf + bytes, read := s.read + bytes)
  }

  function After(cfg: Config, parse: Parser, inputs: seq<Input>): State {
    if inputs == [] then START
    else Next(cfg, parse, After(cfg, parse, inputs[..|inputs| - 1]), inputs[|inputs| - 1])
  }

  ghost predicate Legal(cfg: Config, parse: Parser, inputs: seq<Input>) {
    inputs != [] ==>
      && Legal(cfg, parse, inputs[..|inputs| - 1])
      && Enabled(After(cfg, parse, inputs[..|inputs| - 1]), inputs[|inputs| - 1])
  }

  // ---- The loop itself -------------------------------------------------------------------

  lemma {:induction false} LegalPrefix(cfg: Config, parse: Parser, inputs: seq<Input>, n: nat)
    requires Legal(cfg, parse, inputs) && n <= |inputs|
    ensures Legal(cfg, parse, inputs[..n])
    ensures n < |inputs| ==> Enabled(After(cfg, parse, inputs[..n]), inputs[n])
    ensures n < |inputs| ==> After(cfg, parse, inputs[..n + 1]) == Next(cfg, parse, After(cfg, parse, inputs[..n]), inputs[n])
    decreases |inputs|
  {
    if n == |inputs| {
      assert inputs[..n] == inputs;
    } else {
      var front := inputs[..|inputs| - 1];
      LegalPrefix(cfg, parse, front, n);
      assert front[..n] == inputs[..n];
      assert inputs[..n + 1][..n] == inputs[..n];
    }
  }

  ghost predicate At(s: State, attempt: nat, batch: seq<Entry>, lineBuf: seq<Byte>, events: seq<Event>) {
    s.attempt == attempt && s.batch == batch && s.lineBuf == lineBuf && s.events == events
  }

  method FlushBatch(events: seq<Event>, batch: seq<Entry>) returns (events': seq<Event>)
    ensures events' == Flush(events, batch)
  {
    events' := events;
    if batch != [] {
      events' := events' + [Batch(batch)];
    }
  }

  method PushLine(cfg: Config, parse: Parser, events: seq<Event>, batch: seq<Entry>, line: seq<Byte>)
    returns (events': seq<Event>, batch': seq<Entry>)
    ensures var pushed := Push(parse, batch, line);
            if parse(line).Some? && |pushed| >= cfg.batchSize
            then events' == events + [Batch(pushed)] && batch' == []
            else events' == events && batch' == pushed
  {
    events', batch' := events, batch;
    var entry := parse(line);
    if entry.Some? {
      batch' := batch' + [entry.value];
      if |batch'| >= cfg.batchSize {
        events', batch' := events' + [Batch(batch')], [];
      }
    }
  }

  /** The inner loop, from a successful connect to the end of the connection. */
  method Stream(cfg: Config, parse: Parser, inputs: seq<Input>, from: nat, before: seq<Event>)
    returns (i: nat, events: seq<Event>, attempt: nat, batch: seq<Entry>, lineBuf: seq<Byte>)
    requires Legal(cfg, parse, inputs) && from <= |inputs|
    requires After(cfg, parse, inputs[..from]).phase.Streaming? && At(After(cfg, parse, inputs[..from]), 0, [], [], before)
    ensures from <= i <= |inputs|
    ensures At(After(cfg, parse, inputs[..i]), attempt, batch, lineBuf, events)
    ensures i == |inputs| || (attempt > 0 && After(cfg, parse, inputs[..i]).phase.Backoff?)
  {
    i, events, attempt, batch, lineBuf := from, before, 0, [], [];
    ghost var s := After(cfg, parse, inputs[..i]);
    while i < |inputs|
      invariant from <= i <= |inputs| && s == After(cfg, parse, inputs[..i])
      invariant At(s, attempt, batch, lineBuf, events) && s.phase.Streaming?
      decreases |inputs| - i
    {
      LegalPrefix(cfg, parse, inputs, i);
      var input := inputs[i];
      assert Enabled(s, input);
      s, i := Next(cfg, parse, s, input), i + 1;
      if input.Chunk? {
        events, batch := PushLine(cfg, parse, events, batch, lineBuf + input.bytes);
        lineBuf := [];
      } else {
        events := FlushBatch(events, batch);
        batch := [];
        if !input.Eof? {
          lineBuf := lineBuf + input.bytes;
        }
        if input.Shutdown? {
          Over(cfg, parse, inputs, i);
          return;
        }
        if !input.Tick? {
          attempt := attempt + 1;
          return;
        }
      }
    }
  }

  /** One sleep between two attempts, unless shutdown comes first. */
  method BackOff(cfg: Config, parse: Parser, inputs: seq<Input>, i: nat, attempt: nat, lineBuf: seq<Byte>, before: seq<Event>)
    returns (over: bool, events: seq<Event>)
    requires Legal(cfg, parse, inputs) && i < |inputs|
    requires After(cfg, parse, inputs[..i]).phase.Backoff? && At(After(cfg, parse, inputs[..i]), attempt, [], lineBuf, before)
    ensures At(After(cfg, parse, inputs[..i + 1]), attempt, [], lineBuf, events)
    ensures if over then i + 1 == |inputs| && inputs[..i + 1] == inputs else After(cfg, parse, inputs[..i + 1]).phase.Connecting?
  {
    LegalPrefix(cfg, parse, inputs, i);
    over, events := false, before;
    if inputs[i].Shutdown? {
      assert lineBuf + [] == lineBuf;
      over := true;
    } else if attempt > cfg.maxReconnects {
      events := events + [GaveUp];
      over := true;
    }
    if over {
      Over(cfg, parse, inputs, i + 1);
    }
  }

  /** One attempt to connect and, if it succeeds, the connection. */
  method Attempt(cfg: Config, parse: Parser, inputs: seq<Input>, from: nat, tries: nat, buffer: seq<Byte>, before: seq<Event>)
    returns (i: nat, events: seq<Event>, attempt: nat, batch: seq<Entry>, lineBuf: seq<Byte>)
    requires Legal(cfg, parse, inputs) && from < |inputs|
    requires After(cfg, parse, inputs[..from]).phase.Connecting? && At(After(cfg, parse, inputs[..from]), tries, [], buffer, before)
    ensures from < i <= |inputs| && At(After(cfg, parse, inputs[..i]), attempt, batch, lineBuf, events)
    ensures i == |inputs| || (attempt > 0 && After(cfg, parse, inputs[..i]).phase.Backoff?)
  {
    LegalPrefix(cfg, parse, inputs, from);
    if inputs[from].Connected? {
      i, events, attempt, batch, lineBuf := Stream(cfg, parse, inputs, from + 1, before);
    } else {
      i, events, attempt, batch, lineBuf := from + 1, before, tries + 1, [], buffer;
    }
  }

  /** The outer loop: back off, spawn, stream, again. */
  method Spawn(cfg: Config, parse: Parser, inputs: seq<Input>)
    returns (events: seq<Event>, attempt: nat, batch: seq<Entry>, lineBuf: seq<Byte>)
    requires Legal(cfg, parse, inputs)
    ensures At(After(cfg, parse, inputs), attempt, batch, lineBuf, events)
  {
    events, attempt, batch, lineBuf := [], 0, [], [];
    var i := 0;
    while i < |inputs|
      invariant i <= |inputs| && At(After(cfg, parse, inputs[..i]), attempt, batch, lineBuf, events)
      invariant i < |inputs| ==> After(cfg, parse, inputs[..i]).phase == if attempt > 0 then Backoff else Connecting
      decreases |inputs| - i
    {
      LegalPrefix(cfg, parse, inputs, i);
      BackoffHasNoBatch(cfg, parse, inputs[..i]);
      if attempt > 0 {
        var over;
        over, events := BackOff(cfg, parse, inputs, i, attempt, lineBuf, events);
        i := i + 1;
        if over {
          return;
        }
      }
      if i < |inputs| {
        i, events, attempt, batch, lineBuf := Attempt(cfg, parse, inputs, i, attempt, lineBuf, events);
      }
    }
    assert inputs[..i] == inputs;
  }

  /** Nothing arrives at a task that has returned. */
  lemma Over(cfg: Config, parse: Parser, inputs: seq<Input>, n: nat)
    requires Legal(cfg, parse, inputs) && n <= |inputs| && After(cfg, parse, inputs[..n]).phase.Stopped?
    ensures n == |inputs| && inputs[..n] == inputs
  {
    if n < |inputs| {
      LegalPrefix(cfg, parse, inputs, n);
    }
  }

  // ---- Lines: nothing lost, doubled or torn ----------------------------------------------

  /** The bytes cut after each newline, and what follows the last one. */
  function Lines(b: seq<Byte>): seq<seq<Byte>> {
    if b == [] then []
    else if b[|b| - 1] == NEWLINE then Lines(b[..|b| - 1]) + [Rest(b[..|b| - 1]) + [NEWLINE]]
    else Lines(b[..|b| - 1])
  }

  function Rest(b: seq<Byte>): seq<Byte> {
    if b == [] || b[|b| - 1] == NEWLINE then [] else Rest(b[..|b| - 1]) + [b[|b| - 1]]
  }

  function Flatten(lines: seq<seq<Byte>>): seq<Byte> {
    if lines == [] then [] else Flatten(lines[..|lines| - 1]) + lines[|lines| - 1]
  }

  ghost predicate IsLine(l: seq<Byte>) {
    l != [] && l[|l| - 1] == NEWLINE && NEWLINE !in l[..|l| - 1]
  }

  /** The pieces make up the input, and newlines end lines only. */
  lemma {:induction false} LinesMeaning(b: seq<Byte>)
    ensures Flatten(Lines(b)) + Rest(b) == b
    ensures NEWLINE !in Rest(b)
    ensures forall k :: 0 <= k < |Lines(b)| ==> IsLine(Lines(b)[k])
  {
    LinesFlatten(b);
    LinesAreLines(b);
  }

  lemma {:induction false} LinesFlatten(b: seq<Byte>)
    ensures Flatten(Lines(b)) + Rest(b) == b
    decreases |b|
  {
    if b != [] {
      var front, last := b[..|b| - 1], b[|b| - 1];
      LinesFlatten(front);
      assert b == front + [last];
      if last == NEWLINE {
        FlattenSnoc(Lines(front), Rest(front) + [NEWLINE]);
        Assoc(Flatten(Lines(front)), Rest(front), [NEWLINE]);
      } else {
        Assoc(Flatten(Lines(front)), Rest(front), [last]);
      }
    }
  }

  lemma {:induction false} LinesAreLines(b: seq<Byte>)
    ensures NEWLINE !in Rest(b)
    ensures forall k :: 0 <= k < |Lines(b)| ==> IsLine(Lines(b)[k])
    decreases |b|
  {
    if b != [] {
      var front := b[..|b| - 1];
      LinesAreLines(front);
      assert (Rest(front) + [NEWLINE])[..|Rest(front)|] == Rest(front);
    }
  }

  lemma FlattenSnoc(lines: seq<seq<Byte>>, l: seq<Byte>)
    ensures Flatten(lines + [l]) == Flatten(lines) + l
  {
    assert (lines + [l])[..|lines + [l]| - 1] == lines;
  }

  lemma LinesSnoc(b: seq<Byte>, c: Byte)
    ensures Lines(b + [c]) == if c == NEWLINE then Lines(b) + [Rest(b) + [NEWLINE]] else Lines(b)
    ensures Rest(b + [c]) == if c == NEWLINE then [] else Rest(b) + [c]
  {
    assert (b + [c])[..|b|] == b;
  }

  lemma SplitOneMore(b: seq<Byte>, front: seq<Byte>, c: Byte)
    requires Lines(b + front) == Lines(b) && Rest(b + front) == Rest(b) + front && c != NEWLINE
    ensures Lines(b + (front + [c])) == Lines(b) && Rest(b + (front + [c])) == Rest(b) + (front + [c])
  {
    LinesSnoc(b + front, c);
    Assoc(b, front, [c]);
    Assoc(Rest(b), front, [c]);
  }

  lemma {:induction false} SplitPlain(b: seq<Byte>, more: seq<Byte>)
    requires NEWLINE !in more
    ensures Lines(b + more) == Lines(b) && Rest(b + more) == Rest(b) + more
    decreases |more|
  {
    if more == [] {
      assert b + more == b && Rest(b) + more == Rest(b);
    } else {
      var front, last := more[..|more| - 1], more[|more| - 1];
      SplitPlain(b, front);
      SplitOneMore(b, front, last);
      assert front + [last] == more;
    }
  }

  lemma SplitLine(b: seq<Byte>, more: seq<Byte>)
    requires IsLine(more)
    ensures Lines(b + more) == Lines(b) + [Rest(b) + more] && Rest(b + more) == []
  {
    var front := more[..|more| - 1];
    assert more == front + [NEWLINE];
    SplitPlain(b, front);
    LinesSnoc(b + front, NEWLINE);
    Assoc(b, front, [NEWLINE]);
    Assoc(Rest(b), front, [NEWLINE]);
  }

  function ParseAll(parse: Parser, lines: seq<seq<Byte>>): seq<Entry> {
    if lines == [] then [] else Push(parse, ParseAll(parse, lines[..|lines| - 1]), lines[|lines| - 1])
  }

  function EntriesOf(events: seq<Event>): seq<Entry> {
    if events == [] then []
    else
      var e := events[|events| - 1];
      EntriesOf(events[..|events| - 1]) + if e.Batch? then e.entries else []
  }

  lemma EntriesFlush(events: seq<Event>, batch: seq<Entry>)
    ensures EntriesOf(Flush(events, batch)) == EntriesOf(events) + batch
  {
    if batch != [] {
      assert (events + [Batch(batch)])[..|events|] == events;
    }
  }

  /** The lines the current connection has completed, by its bytes alone. */
  function Completed(s: State): seq<seq<Byte>> {
    Lines(s.read) + if s.ended then [Rest(s.read)] else []
  }

  ghost predicate Conserves(parse: Parser, s: State) {
    && s.base <= |s.events|
    && EntriesOf(s.events[s.base..]) + s.batch == ParseAll(parse, Completed(s))
    && s.lineBuf == (if s.ended then [] else Rest(s.read))
    && (s.ended ==> Rest(s.read) != [])
  }

  lemma ChunkLines(read: seq<Byte>, bytes: seq<Byte>)
    requires bytes != [] && NEWLINE !in bytes[..|bytes| - 1]
    ensures bytes[|bytes| - 1] == NEWLINE ==>
              Lines(read + bytes) == Lines(read) + [Rest(read) + bytes] && Rest(read + bytes) == []
    ensures bytes[|bytes| - 1] != NEWLINE ==>
              Lines(read + bytes) == Lines(read) && Rest(read + bytes) == Rest(read) + bytes
  {
    if bytes[|bytes| - 1] == NEWLINE {
      SplitLine(read, bytes);
    } else {
      var last := bytes[|bytes| - 1];
      assert forall k :: 0 <= k < |bytes| - 1 ==> bytes[k] == bytes[..|bytes| - 1][k];
      SplitPlain(read, bytes);
    }
  }

  lemma ParseSnoc(parse: Parser, lines: seq<seq<Byte>>, line: seq<Byte>)
    ensures ParseAll(parse, lines + [line]) == Push(parse, ParseAll(parse, lines), line)
  {
    assert (lines + [line])[..|lines|] == lines;
  }

  lemma PushBehind(parse: Parser, past: seq<Entry>, batch: seq<Entry>, line: seq<Byte>)
    ensures past + Push(parse, batch, line) == Push(parse, past + batch, line)
  {
    if parse(line).Some? {
      Assoc(past, batch, [parse(line).value]);
    }
  }

  lemma ChunkCompletes(s: State, t: State, bytes: seq<Byte>)
    requires !s.ended && s.lineBuf == Rest(s.read) && bytes != [] && NEWLINE !in bytes[..|bytes| - 1]
    requires t.read == s.read + bytes && t.lineBuf == [] && t.ended == (bytes[|bytes| - 1] != NEWLINE)
    ensures Completed(s) == Lines(s.read) && Completed(t) == Lines(s.read) + [s.lineBuf + bytes]
    ensures t.lineBuf == (if t.ended then [] else Rest(t.read)) && (t.ended ==> Rest(t.read) != [])
  {
    ChunkLines(s.read, bytes);
    assert Lines(s.read) + [] == Lines(s.read);
    assert Lines(s.read) + [s.lineBuf + bytes] + [] == Lines(s.read) + [s.lineBuf + bytes];
  }

  lemma PushedEvents(parse: Parser, events: seq<Event>, base: nat, batch: seq<Entry>, line: seq<Byte>, full: bool)
    requires base <= |events| && (full ==> parse(line).Some?)
    ensures var pushed := Push(parse, batch, line);
            var events', batch' := if full then events + [Batch(pushed)] else events, if full then [] else pushed;
            EntriesOf(events'[base..]) + batch' == Push(parse, EntriesOf(events[base..]) + batch, line)
  {
    var past, pushed := events[base..], Push(parse, batch, line);
    PushBehind(parse, EntriesOf(past), batch, line);
    if full {
      assert (events + [Batch(pushed)])[base..] == Flush(past, pushed);
      EntriesFlush(past, pushed);
    }
  }

  lemma ChunkConserves(cfg: Config, parse: Parser, s: State, bytes: seq<Byte>)
    requires Conserves(parse, s) && s.phase.Streaming? && Enabled(s, Chunk(bytes))
    ensures Conserves(parse, Next(cfg, parse, s, Chunk(bytes)))
  {
    var line := s.lineBuf + bytes;
    var pushed := Push(parse, s.batch, line);
    ChunkCompletes(s, Next(cfg, parse, s, Chunk(bytes)), bytes);
    ParseSnoc(parse, Lines(s.read), line);
    PushedEvents(parse, s.events, s.base, s.batch, line, parse(line).Some? && |pushed| >= cfg.batchSize);
  }

  lemma FlushedEvents(events: seq<Event>, base: nat, batch: seq<Entry>)
    requires base <= |events|
    ensures base <= |Flush(events, batch)|
    ensures EntriesOf(Flush(events, batch)[base..]) == EntriesOf(events[base..]) + batch
  {
    assert Flush(events, batch)[base..] == Flush(events[base..], batch);
    EntriesFlush(events[base..], batch);
  }

  /** Bytes without a newline complete no line. */
  lemma MovedCompletesNothing(s: State, t: State, bytes: seq<Byte>)
    requires NEWLINE !in bytes && (s.ended ==> bytes == []) && s.lineBuf == (if s.ended then [] else Rest(s.read))
    requires t.lineBuf == s.lineBuf + bytes && t.read == s.read + bytes && t.ended == s.ended
    ensures Completed(t) == Completed(s) && t.lineBuf == (if t.ended then [] else Rest(t.read))
    ensures t.ended ==> Rest(t.read) == Rest(s.read)
  {
    SplitPlain(s.read, bytes);
    assert bytes == [] ==> s.read + bytes == s.read;
  }

  lemma FlushConserves(parse: Parser, s: State, t: State, bytes: seq<Byte>)
    requires Conserves(parse, s) && NEWLINE !in bytes && (s.ended ==> bytes == [])
    requires t.batch == [] && t.events == Flush(s.events, s.batch) && t.base == s.base && t.ended == s.ended
    requires t.lineBuf == s.lineBuf + bytes && t.read == s.read + bytes
    ensures Conserves(parse, t)
  {
    MovedCompletesNothing(s, t, bytes);
    FlushedEvents(s.events, s.base, s.batch);
    assert EntriesOf(t.events[t.base..]) + [] == EntriesOf(t.events[t.base..]);
  }

  lemma GaveUpHasNoEntries(past: seq<Event>)
    ensures EntriesOf(past + [GaveUp]) == EntriesOf(past)
  {
    assert (past + [GaveUp])[..|past|] == past;
    assert EntriesOf(past) + [] == EntriesOf(past);
  }

  lemma SleptConserves(cfg: Config, parse: Parser, s: State)
    requires Conserves(parse, s) && s.batch == []
    ensures Conserves(parse, Next(cfg, parse, s, Slept))
  {
    var t := Next(cfg, parse, s, Slept);
    assert t.read == s.read && t.ended == s.ended && t.lineBuf == s.lineBuf && t.base == s.base && t.batch == s.batch;
    assert Completed(t) == Completed(s);
    if s.attempt > cfg.maxReconnects {
      var past := s.events[s.base..];
      assert t.events[s.base..] == past + [GaveUp];
      GaveUpHasNoEntries(past);
    }
  }

  lemma NextConserves(cfg: Config, parse: Parser, s: State, i: Input)
    requires Conserves(parse, s) && Enabled(s, i) && (!s.phase.Streaming? ==> s.batch == [])
    ensures Conserves(parse, Next(cfg, parse, s, i))
  {
    var t := Next(cfg, parse, s, i);
    match i
    case Chunk(bytes) => ChunkConserves(cfg, parse, s, bytes);
    case Tick(bytes) => FlushConserves(parse, s, t, bytes);
    case ReadError(bytes) => FlushConserves(parse, s, t, bytes);
    case Shutdown(bytes) => FlushConserves(parse, s, t, bytes);
    case Eof =>
      assert s.lineBuf + [] == s.lineBuf && s.read + [] == s.read;
      FlushConserves(parse, s, t, []);
    case Slept => SleptConserves(cfg, parse, s);
    case Connected => assert t.events[t.base..] == [];
    case _ =>
  }

  /** Over every run: what the current connection has emitted, followed by the pending batch, is
      in order the parse of the lines its bytes complete, however many ticks cut reads apart; the
      line buffer holds the unfinished rest. */
  lemma {:induction false} StreamConserves(cfg: Config, parse: Parser, inputs: seq<Input>)
    requires Legal(cfg, parse, inputs)
    ensures Conserves(parse, After(cfg, parse, inputs))
    decreases |inputs|
  {
    if inputs != [] {
      var front := inputs[..|inputs| - 1];
      StreamConserves(cfg, parse, front);
      BackoffHasNoBatch(cfg, parse, front);
      NextConserves(cfg, parse, After(cfg, parse, front), inputs[|inputs| - 1]);
    }
  }

  // ---- The same by the inputs alone ------------------------------------------------------

  function BytesOf(i: Input): seq<Byte> {
    match i
    case Chunk(bytes) => bytes
    case Tick(bytes) => bytes
    case ReadError(bytes) => bytes
    case Shutdown(bytes) => bytes
    case _ => []
  }

  /** How many inputs there are up to the last connect, and it; none if there was no connect. */
  function LastConnect(inputs: seq<Input>): (n: nat)
    ensures n <= |inputs|
    ensures n > 0 ==> inputs[n - 1].Connected?
  {
    if inputs == [] then 0
    else if inputs[|inputs| - 1].Connected? then |inputs|
    else LastConnect(inputs[..|inputs| - 1])
  }

  /** The bytes received since the last connect. */
  function Received(inputs: seq<Input>): seq<Byte> {
    if inputs == [] || inputs[|inputs| - 1].Connected? then []
    else Received(inputs[..|inputs| - 1]) + BytesOf(inputs[|inputs| - 1])
  }

  /** Whether the stream has ended in a line without newline. */
  function EndedOpen(inputs: seq<Input>): bool {
    inputs != [] &&
    var i := inputs[|inputs| - 1];
    if i.Chunk? then i.bytes != [] && i.bytes[|i.bytes| - 1] != NEWLINE
    else !i.Connected? && EndedOpen(inputs[..|inputs| - 1])
  }

  /** The lines completed since the last connect. */
  function LinesReceived(inputs: seq<Input>): seq<seq<Byte>> {
    Lines(Received(inputs)) + if EndedOpen(inputs) then [Rest(Received(inputs))] else []
  }

  /** The entries that all connections so far have brought. */
  function AllParsed(parse: Parser, inputs: seq<Input>): seq<Entry>
    decreases |inputs|
  {
    var n := LastConnect(inputs);
    (if n == 0 then [] else AllParsed(parse, inputs[..n - 1])) + ParseAll(parse, LinesReceived(inputs))
  }

  /** What one input does to the record of the connection. */
  lemma NextReceives(cfg: Config, parse: Parser, s: State, i: Input)
    requires Enabled(s, i)
    ensures var t := Next(cfg, parse, s, i);
            && s.events <= t.events
            && (i.Connected? ==> t.read == [] && !t.ended && t.base == |s.events| && t.events == s.events)
            && (!i.Connected? ==> t.read == s.read + BytesOf(i) && t.base == s.base)
            && (!i.Connected? && !i.Chunk? ==> t.ended == s.ended)
            && (t.phase.Streaming? ==> i.Connected? || s.phase.Streaming?)
            && (!s.phase.Streaming? && !i.Connected? ==> BytesOf(i) == [])
  {
    assert s.read + [] == s.read;
  }

  lemma {:induction false} StateIsReceived(cfg: Config, parse: Parser, inputs: seq<Input>)
    requires Legal(cfg, parse, inputs)
    ensures var s := After(cfg, parse, inputs);
            s.read == Received(inputs) && s.ended == EndedOpen(inputs) && (LastConnect(inputs) == 0 ==> s.base == 0 && s.read == [])
    ensures LastConnect(inputs) == 0 ==> !After(cfg, parse, inputs).phase.Streaming?
    decreases |inputs|
  {
    if inputs != [] {
      var front, last := inputs[..|inputs| - 1], inputs[|inputs| - 1];
      StateIsReceived(cfg, parse, front);
      NextReceives(cfg, parse, After(cfg, parse, front), last);
      assert Received(inputs) == if last.Connected? then [] else Received(front) + BytesOf(last);
    }
  }

  /** What was said before the last connect stays said. */
  lemma {:induction false} PastStays(cfg: Config, parse: Parser, inputs: seq<Input>)
    requires Legal(cfg, parse, inputs) && LastConnect(inputs) > 0
    ensures var s, before := After(cfg, parse, inputs), After(cfg, parse, inputs[..LastConnect(inputs) - 1]);
            s.base == |before.events| && before.events <= s.events
    decreases |inputs|
  {
    var n, front := LastConnect(inputs), inputs[..|inputs| - 1];
    NextReceives(cfg, parse, After(cfg, parse, front), inputs[|inputs| - 1]);
    if n < |inputs| {
      PastStays(cfg, parse, front);
      assert front[..n - 1] == inputs[..n - 1];
    }
  }

  lemma {:induction false} EntriesAppend(a: seq<Event>, b: seq<Event>)
    ensures EntriesOf(a + b) == EntriesOf(a) + EntriesOf(b)
    decreases |b|
  {
    if b == [] {
      assert a + b == a;
    } else {
      EntriesAppend(a, b[..|b| - 1]);
      assert (a + b)[..|a + b| - 1] == a + b[..|b| - 1];
    }
  }

  /** Over whole runs and all their connections: everything handed over, and then the pending batch,
      is in order the parse of the lines that each connection completed. */
  lemma {:induction false} RunConserves(cfg: Config, parse: Parser, inputs: seq<Input>)
    requires Legal(cfg, parse, inputs)
    ensures var s := After(cfg, parse, inputs); EntriesOf(s.events) + s.batch == AllParsed(parse, inputs)
    decreases |inputs|
  {
    var s, n := After(cfg, parse, inputs), LastConnect(inputs);
    StreamConserves(cfg, parse, inputs);
    StateIsReceived(cfg, parse, inputs);
    if n == 0 {
      assert s.events[0..] == s.events;
    } else {
      var earlier := inputs[..n - 1];
      LegalPrefix(cfg, parse, inputs, n - 1);
      RunConserves(cfg, parse, earlier);
      BackoffHasNoBatch(cfg, parse, earlier);
      PastStays(cfg, parse, inputs);
      PastAndRest(s.events, s.base, s.batch, After(cfg, parse, earlier).events);
    }
  }

  lemma PastAndRest(events: seq<Event>, base: nat, batch: seq<Entry>, past: seq<Event>)
    requires base == |past| && past <= events
    ensures EntriesOf(events) + batch == EntriesOf(past) + [] + (EntriesOf(events[base..]) + batch)
  {
    EntriesAppend(past, events[base..]);
    assert past + events[base..] == events;
  }

  /** A tick, the end of the stream, a read error and shutdown each hand over all that has been
      parsed: nothing waits behind them. */
  lemma HandsOver(cfg: Config, parse: Parser, inputs: seq<Input>, i: Input)
    requires Legal(cfg, parse, inputs + [i]) && (i.Tick? || i.Eof? || i.ReadError? || i.Shutdown?)
    ensures var s := After(cfg, parse, inputs + [i]);
            s.batch == [] && EntriesOf(s.events) == AllParsed(parse, inputs + [i])
  {
    assert (inputs + [i])[..|inputs|] == inputs;
    RunConserves(cfg, parse, inputs + [i]);
    BackoffHasNoBatch(cfg, parse, inputs);
  }

  /** Shutdown ends the task. */
  lemma ShutdownIsLast(cfg: Config, parse: Parser, inputs: seq<Input>, k: nat)
    requires Legal(cfg, parse, inputs) && k < |inputs| && inputs[k].Shutdown?
    ensures k == |inputs| - 1
  {
    LegalPrefix(cfg, parse, inputs, k);
    Over(cfg, parse, inputs, k + 1);
  }

  lemma {:induction false} BackoffHasNoBatch(cfg: Config, parse: Parser, inputs: seq<Input>)
    requires Legal(cfg, parse, inputs)
    ensures !After(cfg, parse, inputs).phase.Streaming? ==> After(cfg, parse, inputs).batch == []
    decreases |inputs|
  {
    if inputs != [] {
      BackoffHasNoBatch(cfg, parse, inputs[..|inputs| - 1]);
    }
  }

  /** The bytes that ticks have moved into the buffer since the last read that completed, or since
      the connect, read off the inputs. */
  function MovedByTicks(inputs: seq<Input>): seq<Byte> {
    if inputs == [] || !inputs[|inputs| - 1].Tick? then []
    else MovedByTicks(inputs[..|inputs| - 1]) + inputs[|inputs| - 1].bytes
  }

  lemma {:induction false} BufferIsMoved(cfg: Config, parse: Parser, inputs: seq<Input>)
    requires Legal(cfg, parse, inputs) && After(cfg, parse, inputs).phase.Streaming?
    ensures After(cfg, parse, inputs).lineBuf == MovedByTicks(inputs)
    decreases |inputs|
  {
    if inputs[|inputs| - 1].Tick? {
      BufferIsMoved(cfg, parse, inputs[..|inputs| - 1]);
    }
  }

  /** At end of file everything parsed has been handed over. The bytes behind the last newline are
      parsed as a last line if and only if no tick has moved bytes since the last completed read;
      otherwise they are lost, and they are exactly the bytes so moved. */
  lemma EofTail(cfg: Config, parse: Parser, inputs: seq<Input>)
    requires Legal(cfg, parse, inputs + [Eof])
    ensures var t := After(cfg, parse, inputs + [Eof]); var rest := Rest(Received(inputs));
            && t.batch == [] && t.base <= |t.events|
            && EntriesOf(t.events[t.base..])
               == ParseAll(parse, Lines(Received(inputs)) + if MovedByTicks(inputs) == [] && rest != [] then [rest] else [])
            && (MovedByTicks(inputs) != [] ==> rest == MovedByTicks(inputs))
  {
    assert (inputs + [Eof])[..|inputs + [Eof]| - 1] == inputs;
    StateIsReceived(cfg, parse, inputs);
    StreamConserves(cfg, parse, inputs);
    StreamConserves(cfg, parse, inputs + [Eof]);
    BufferIsMoved(cfg, parse, inputs);
  }

  lemma OneMore(cfg: Config, parse: Parser, inputs: seq<Input>, i: Input)
    requires Legal(cfg, parse, inputs) && Enabled(After(cfg, parse, inputs), i)
    ensures Legal(cfg, parse, inputs + [i])
    ensures After(cfg, parse, inputs + [i]) == Next(cfg, parse, After(cfg, parse, inputs), i)
  {
    assert (inputs + [i])[..|inputs|] == inputs;
  }

  lemma JustConnected(cfg: Config, parse: Parser)
    ensures Legal(cfg, parse, [Connected])
    ensures After(cfg, parse, [Connected]) == State(Streaming, 0, [], [], [], [], false, 0, 0)
  {
    OneMore(cfg, parse, [], Connected);
    assert [] + [Connected] == [Connected];
  }

  /** A tick takes `a`, nothing more is read, the stream ends: `a` is lost. */
  lemma TailLost(cfg: Config, parse: Parser, a: Byte)
    requires a != NEWLINE
    ensures var run := [Connected, Tick([a]), Eof];
            Legal(cfg, parse, run) && After(cfg, parse, run).events == [] && After(cfg, parse, run).read == [a]
  {
    JustConnected(cfg, parse);
    OneMore(cfg, parse, [Connected], Tick([a]));
    OneMore(cfg, parse, [Connected] + [Tick([a])], Eof);
    assert [Connected] + [Tick([a])] + [Eof] == [Connected, Tick([a]), Eof];
    assert [] + [a] == [a];
  }

  lemma TailArrives(cfg: Config, parse: Parser, a: Byte, b: Byte) returns (front: seq<Input>)
    requires a != NEWLINE && b != NEWLINE
    ensures front == [Connected, Tick([a]), Chunk([b])] && Legal(cfg, parse, front)
    ensures var s := After(cfg, parse, front); s.phase.Streaming? && s.read == [a, b] && s.base == 0
  {
    JustConnected(cfg, parse);
    OneMore(cfg, parse, [Connected], Tick([a]));
    assert [b][..0] == [] && [] + [a] == [a] && [a] + [b] == [a, b];
    OneMore(cfg, parse, [Connected] + [Tick([a])], Chunk([b]));
    front := [Connected] + [Tick([a])] + [Chunk([b])];
  }

  /** Had one more byte been read before the end, both would have been parsed, tick or no tick. */
  lemma TailKept(cfg: Config, parse: Parser, a: Byte, b: Byte)
    requires a != NEWLINE && b != NEWLINE
    ensures var run := [Connected, Tick([a]), Chunk([b]), Eof];
            Legal(cfg, parse, run) && EntriesOf(After(cfg, parse, run).events) == ParseAll(parse, [[a, b]])
  {
    var front := TailArrives(cfg, parse, a, b);
    OneMore(cfg, parse, front, Eof);
    assert front + [Eof] == [Connected, Tick([a]), Chunk([b]), Eof];
    EofTail(cfg, parse, front);
    StateIsReceived(cfg, parse, front);
    SplitPlain([], [a, b]);
    assert [] + [a, b] == [a, b] && Lines([]) + [[a, b]] == [[a, b]];
    assert After(cfg, parse, front + [Eof]).events[0..] == After(cfg, parse, front + [Eof]).events;
  }

  // ---- Batches, failures, giving up ------------------------------------------------------

  ghost predicate BatchesFit(cfg: Config, s: State) {
    var cap := if cfg.batchSize == 0 then 1 else cfg.batchSize;
    && |s.batch| < cap
    && forall k :: 0 <= k < |s.events| && s.events[k].Batch? ==> 1 <= |s.events[k].entries| <= cap
  }

  lemma NextKeepsBatchesFit(cfg: Config, parse: Parser, s: State, i: Input)
    requires BatchesFit(cfg, s)
    ensures BatchesFit(cfg, Next(cfg, parse, s, i))
  {
    var t := Next(cfg, parse, s, i);
    assert |t.events| <= |s.events| + 1;
    assert forall k :: 0 <= k < |s.events| ==> t.events[k] == s.events[k];
  }

  /** No batch is empty or larger than the configured size (one entry when that is zero). */
  lemma {:induction false} BatchSizes(cfg: Config, parse: Parser, inputs: seq<Input>)
    requires Legal(cfg, parse, inputs)
    ensures BatchesFit(cfg, After(cfg, parse, inputs))
    decreases |inputs|
  {
    if inputs != [] {
      BatchSizes(cfg, parse, inputs[..|inputs| - 1]);
      NextKeepsBatchesFit(cfg, parse, After(cfg, parse, inputs[..|inputs| - 1]), inputs[|inputs| - 1]);
    }
  }

  /** Failures since the last successful connect, read off the inputs. */
  function ConsecutiveFailures(inputs: seq<Input>): nat {
    if inputs == [] || inputs[|inputs| - 1].Connected? then 0
    else ConsecutiveFailures(inputs[..|inputs| - 1]) + if Failure(inputs[|inputs| - 1]) then 1 else 0
  }

  lemma {:induction false} AttemptCountsFailures(cfg: Config, parse: Parser, inputs: seq<Input>)
    requires Legal(cfg, parse, inputs)
    ensures After(cfg, parse, inputs).attempt == ConsecutiveFailures(inputs)
    decreases |inputs|
  {
    if inputs != [] {
      AttemptCountsFailures(cfg, parse, inputs[..|inputs| - 1]);
    }
  }

  function BackoffSum(n: nat): nat {
    if n == 0 then 0 else BackoffSum(n - 1) + BackoffFor(n)
  }

  /** The waits of a streak add up to these times. */
  lemma {:induction false} BackoffSumClosed(n: nat)
    ensures BackoffSum(n) == if n >= 4 then 8_500 + 10_000 * (n - 4) else [0, 500, 1_500, 3_500][n]
  {
    if n > 0 {
      BackoffSumClosed(n - 1);
    }
  }

  /** The sleep behind each failure, by the failures in a row so far: half a second first, and never
      shorter than the one before. */
  lemma SleepTimes(cfg: Config, parse: Parser, inputs: seq<Input>)
    requires Legal(cfg, parse, inputs + [Slept])
    ensures var n := ConsecutiveFailures(inputs); var wait := After(cfg, parse, inputs + [Slept]).waited - After(cfg, parse, inputs).waited;
            && n >= 1 && (n == 1 ==> wait == 500) && (n >= 5 ==> wait == 10_000)
            && wait == BackoffSum(n) - BackoffSum(n - 1) && (n > 1 ==> wait >= BackoffSum(n - 1) - BackoffSum(n - 2))
  {
    assert (inputs + [Slept])[..|inputs|] == inputs;
    AttemptCountsFailures(cfg, parse, inputs);
    StreakHolds(cfg, parse, inputs);
  }

  ghost predicate Streak(cfg: Config, s: State) {
    && s.attempt <= cfg.maxReconnects + 1
    && (s.phase.Backoff? ==> s.attempt > 0 && s.waited == BackoffSum(s.attempt - 1))
    && (s.phase.Connecting? ==> s.attempt <= cfg.maxReconnects && s.waited == BackoffSum(s.attempt))
    && (s.phase.Streaming? ==> s.attempt == 0 && s.waited == 0)
    && (forall k :: 0 <= k < |s.events| && s.events[k].GaveUp? ==> k == |s.events| - 1 && s.phase.Stopped?)
    && (s.events != [] && s.events[|s.events| - 1].GaveUp? ==>
          s.attempt == cfg.maxReconnects + 1 && s.waited == BackoffSum(s.attempt))
  }

  lemma NextKeepsStreak(cfg: Config, parse: Parser, s: State, i: Input)
    requires Streak(cfg, s) && Enabled(s, i)
    ensures Streak(cfg, Next(cfg, parse, s, i))
  {
    var t := Next(cfg, parse, s, i);
    assert |s.events| <= |t.events| <= |s.events| + 1;
    assert forall k :: 0 <= k < |s.events| ==> t.events[k] == s.events[k];
    assert BackoffSum(s.attempt + 1) == BackoffSum(s.attempt) + BackoffFor(s.attempt + 1);
  }

  /** The counter never passes the limit by more than one, the time waited is the sum of the
      back-offs of the streak, and the error event is the last thing a task ever says. */
  lemma {:induction false} StreakHolds(cfg: Config, parse: Parser, inputs: seq<Input>)
    requires Legal(cfg, parse, inputs)
    ensures Streak(cfg, After(cfg, parse, inputs))
    decreases |inputs|
  {
    if inputs != [] {
      StreakHolds(cfg, parse, inputs[..|inputs| - 1]);
      NextKeepsStreak(cfg, parse, After(cfg, parse, inputs[..|inputs| - 1]), inputs[|inputs| - 1]);
    }
  }

  lemma ErrorAtStep(cfg: Config, parse: Parser, s: State, i: Input)
    requires Streak(cfg, s) && Enabled(s, i)
    ensures var t := Next(cfg, parse, s, i);
            (exists k :: 0 <= k < |t.events| && t.events[k].GaveUp?) <==> i.Slept? && t.attempt == cfg.maxReconnects + 1
  {
    var t := Next(cfg, parse, s, i);
    if i.Slept? && t.attempt == cfg.maxReconnects + 1 {
      assert t.events[|t.events| - 1].GaveUp?;
    } else {
      forall k | 0 <= k < |t.events|
        ensures !t.events[k].GaveUp?
      {
        assert k < |s.events| ==> t.events[k] == s.events[k];
      }
    }
  }

  /** A task gives up exactly at the end of the sleep that follows failure number
      `maxReconnects + 1` in a row, and with a limit of three or more it has then waited 8.5 s
      plus 10 s for each further attempt allowed. */
  lemma GivesUpExactly(cfg: Config, parse: Parser, inputs: seq<Input>)
    requires Legal(cfg, parse, inputs)
    ensures (exists k :: 0 <= k < |After(cfg, parse, inputs).events| && After(cfg, parse, inputs).events[k].GaveUp?)
       <==> inputs != [] && inputs[|inputs| - 1].Slept? && ConsecutiveFailures(inputs) == cfg.maxReconnects + 1
    ensures cfg.maxReconnects >= 3 && inputs != [] && inputs[|inputs| - 1].Slept?
            && ConsecutiveFailures(inputs) == cfg.maxReconnects + 1
            ==> After(cfg, parse, inputs).waited == 8_500 + 10_000 * (cfg.maxReconnects - 3)
  {
    AttemptCountsFailures(cfg, parse, inputs);
    StreakHolds(cfg, parse, inputs);
    if inputs != [] {
      var front := inputs[..|inputs| - 1];
      StreakHolds(cfg, parse, front);
      ErrorAtStep(cfg, parse, After(cfg, parse, front), inputs[|inputs| - 1]);
    }
    if cfg.maxReconnects >= 3 {
      BackoffSumClosed(cfg.maxReconnects + 1);
    }
  }
}
