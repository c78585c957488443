/**
 * The SSH terminal of sshterminal/ssh_terminal.py: a shell channel, a screen fed by
 * what the channel receives, and an input manager that sanitises and sends data.
 *
 * The terminal emulator (pyte) and the SSH channel (paramiko) are replaced by an
 * environment of oracles: what each poll of the channel returns, what feeding a
 * decoded chunk does to the screen, a clock, and how the cursor answers keystrokes.
 */
module Session {
  import opened Wrappers
  import opened PyText
  import opened Utf8
  import opened Errors
  import Py

  /** AV2000Terminal.SCREEN_ROWS and SCREEN_COLS. */
  const Rows: nat := 40
  const Cols: nat := 100

  /** The screen as `display_lines` shows it: one string per row. */
  type Display = d: seq<string> | |d| == 40 witness BlankRows(40)

  /** n rows of Cols spaces. */
  function BlankRows(n: nat): (r: seq<string>)
    ensures |r| == n
    ensures forall i :: 0 <= i < n ==> r[i] == Repeat(' ', Cols)
  {
    if n == 0 then [] else BlankRows(n - 1) + [Repeat(' ', Cols)]
  }

  /** A freshly reset screen. */
  function BlankDisplay(): (d: Display)
    ensures forall i :: 0 <= i < Rows ==> AllSpace(d[i])
  {
    BlankRows(Rows)
  }

  datatype Pos = Pos(line: int, col: int)

  /** A cursor-motion keystroke sent through the cursor object. */
  datatype CursorKey = CursorUp | CursorDown | TabBack | TabFwd

  /** What the terminal has done, in order. */
  datatype Event =
    | Sent(data: Bytes)
    | Updated(chunks: nat)
    | Keyed(key: CursorKey)
    | Typed(text: string)
    | ShellClosed
    | ScreenReset

  /**
   * How the cursor answers a cursor keystroke: the emulator shows it at `to`, any
   * cell at all (a TAB may wrap to another row, or land behind the cursor), once
   * `lag` re-polls have gone by; or it never shows it anywhere else.
   */
  datatype Motion = Moves(lag: nat, to: Pos) | Stuck

  /** The effect of feeding one decoded chunk to the emulator: new rows, rows touched. */
  datatype Feed = Feed(lines: Display, touched: set<int>)

  datatype Env = Env(
    polls: nat -> seq<Option<Bytes>>,   // the recv_ready/recv answers of the n-th update
    decode: Bytes -> string,            // bytes.decode(encoding, errors='replace') for the screen's encoding
    feed: (Display, string) -> Feed,    // pyte's Stream.feed
    start: int,                         // the first clock reading
    tick: nat -> nat,                   // extra time between reading n and n + 1
    motion: (nat, Pos, CursorKey) -> Motion,  // the answer to keystroke n, pressed with the cursor at a cell
    seekBudget: nat)                    // how many keystrokes of one cursor seek the model follows

  datatype Term = Term(
    lines: Display,
    dirty: set<int>,
    cursor: Pos,
    closed: bool,
    lineEnd: Bytes,
    log: seq<Event>,
    updates: nat,
    clockReads: nat,
    keystrokes: nat)

  /** The data sent over the channel, in order. */
  function Sends(log: seq<Event>): seq<Bytes> {
    if log == [] then []
    else if log[0].Sent? then [log[0].data] + Sends(log[1..])
    else Sends(log[1..])
  }

  /** Sends distributes over concatenation of logs. */
  lemma {:induction false} SendsAppend(a: seq<Event>, b: seq<Event>)
    ensures Sends(a + b) == Sends(a) + Sends(b)
  {
    if a != [] {
      assert (a + b)[1..] == a[1..] + b;
      SendsAppend(a[1..], b);
    } else {
      assert a + b == b;
    }
  }

  /** Appending one event adds its data when it is a send, and nothing otherwise. */
  lemma SendsSnoc(log: seq<Event>, e: Event)
    ensures Sends(log + [e]) == Sends(log) + (if e.Sent? then [e.data] else [])
  {
    SendsAppend(log, [e]);
  }

  /** The outcome of an operation: the terminal afterwards and a value or an exception. */
  datatype Run<T> = Run(t: Term, r: Result<T, Exc>)

  /** The k-th clock reading: every reading is later than the one before. */
  function Clock(env: Env, k: nat): (c: int)
    ensures c >= env.start + k
  {
    if k == 0 then env.start else Clock(env, k - 1) + env.tick(k - 1) + 1
  }

  lemma ClockIncreases(env: Env, j: nat, k: nat)
    requires j <= k
    ensures Clock(env, k) - Clock(env, j) >= k - j
    decreases k - j
  {
    if j < k {
      ClockIncreases(env, j, k - 1);
    }
  }

  /** Read the clock. */
  function Now(t: Term, env: Env): (r: (Term, int))
    ensures r.0 == t.(clockReads := t.clockReads + 1) && r.1 == Clock(env, t.clockReads)
  {
    (t.(clockReads := t.clockReads + 1), Clock(env, t.clockReads))
  }

  /** SSHShell.recv: the chunks received before the first poll that finds nothing. */
  function Recv(polls: seq<Option<Bytes>>): (r: seq<Bytes>)
    ensures |r| <= |polls|
    ensures forall i :: 0 <= i < |r| ==> polls[i] == Some(r[i])
    ensures |r| < |polls| ==> polls[|r|].None?
  {
    if polls == [] || polls[0].None? then [] else [polls[0].value] + Recv(polls[1..])
  }

  /** Feed each chunk, decoded on its own with errors='replace', collecting the rows touched. */
  function FeedChunks(lines: Display, chunks: seq<Bytes>, feed: (Display, string) -> Feed, decode: Bytes -> string): (r: Feed)
    ensures chunks == [] ==> r == Feed(lines, {})
    ensures |chunks| == 1 ==> r == feed(lines, decode(chunks[0]))
    decreases |chunks|
  {
    if chunks == [] then Feed(lines, {})
    else
      var first := feed(lines, decode(chunks[0]));
      var rest := FeedChunks(first.lines, chunks[1..], feed, decode);
      Feed(rest.lines, first.touched + rest.touched)
  }

  /** Every row a fed chunk touches is in the collected set, and nothing else is. */
  lemma {:induction false} FeedChunksTouched(lines: Display, chunks: seq<Bytes>, feed: (Display, string) -> Feed, decode: Bytes -> string, row: int)
    ensures row in FeedChunks(lines, chunks, feed, decode).touched <==>
      exists k :: 0 <= k < |chunks| && row in feed(FedUpTo(lines, chunks, feed, decode, k), decode(chunks[k])).touched
    decreases |chunks|
  {
    if chunks != [] {
      var first := feed(lines, decode(chunks[0]));
      FeedChunksTouched(first.lines, chunks[1..], feed, decode, row);
      forall k | 1 <= k < |chunks|
        ensures FedUpTo(lines, chunks, feed, decode, k) == FedUpTo(first.lines, chunks[1..], feed, decode, k - 1)
      {
      }
      if row in FeedChunks(lines, chunks, feed, decode).touched && row !in first.touched {
        var k :| 0 <= k < |chunks[1..]| &&
          row in feed(FedUpTo(first.lines, chunks[1..], feed, decode, k), decode(chunks[1..][k])).touched;
        assert row in feed(FedUpTo(lines, chunks, feed, decode, k + 1), decode(chunks[k + 1])).touched;
      }
      if exists k :: 0 <= k < |chunks| && row in feed(FedUpTo(lines, chunks, feed, decode, k), decode(chunks[k])).touched {
        var k :| 0 <= k < |chunks| && row in feed(FedUpTo(lines, chunks, feed, decode, k), decode(chunks[k])).touched;
        if k > 0 {
          assert row in feed(FedUpTo(first.lines, chunks[1..], feed, decode, k - 1), decode(chunks[1..][k - 1])).touched;
        }
      }
    }
  }

  /** The screen rows after feeding the first k chunks. */
  function FedUpTo(lines: Display, chunks: seq<Bytes>, feed: (Display, string) -> Feed, decode: Bytes -> string, k: nat): Display
    requires k <= |chunks|
    decreases k
  {
    if k == 0 then lines else FedUpTo(feed(lines, decode(chunks[0])).lines, chunks[1..], feed, decode, k - 1)
  }

  /** The terminal after an update that received `n` chunks with effect `fed`. */
  function Fed(t: Term, n: nat, fed: Feed): Term {
    Term(fed.lines, fed.touched, t.cursor, t.closed, t.lineEnd, t.log + [Updated(n)],
         t.updates + 1, t.clockReads, t.keystrokes)
  }

  /**
   * ScreenManager.update: clear the dirty set, then receive and feed. Afterwards
   * `modified_lines` holds exactly the rows touched during this call.
   */
  function Update(t: Term, env: Env): (r: Term)
    ensures r.updates == t.updates + 1 && r.log == t.log + [Updated(|Recv(env.polls(t.updates))|)]
    ensures r.closed == t.closed && r.cursor == t.cursor && r.lineEnd == t.lineEnd
    ensures r.clockReads == t.clockReads && r.keystrokes == t.keystrokes
    ensures Recv(env.polls(t.updates)) == [] ==> r.lines == t.lines && r.dirty == {}
    ensures Sends(r.log) == Sends(t.log)
  {
    SendsSnoc(t.log, Updated(|Recv(env.polls(t.updates))|));
    Fed(t, |Recv(env.polls(t.updates))|, FeedChunks(t.lines, Recv(env.polls(t.updates)), env.feed, env.decode))
  }

  /**
   * After an update a row is dirty exactly when one of the chunks received during
   * that call touched it: the rows dirty before the call play no part.
   */
  lemma UpdateDirtyIsTouched(t: Term, env: Env, row: int)
    ensures row in Update(t, env).dirty <==>
      exists k :: 0 <= k < |Recv(env.polls(t.updates))| &&
        row in env.feed(FedUpTo(t.lines, Recv(env.polls(t.updates)), env.feed, env.decode, k),
                        env.decode(Recv(env.polls(t.updates))[k])).touched
  {
    FeedChunksTouched(t.lines, Recv(env.polls(t.updates)), env.feed, env.decode, row);
    assert Update(t, env).dirty == FeedChunks(t.lines, Recv(env.polls(t.updates)), env.feed, env.decode).touched;
  }

  /** InputManager.sanitize_data: bytes unchanged, str encoded as UTF-8, anything else TypeError. */
  function Sanitize(v: Py.Value): (r: Result<Bytes, Exc>)
    ensures v.Raw? ==> r == Ok(v.bytes)
    ensures v.Str? ==> r == Ok(Encode(v.s)) && DecodeStrict(r.value) == Some(v.s)
    ensures !v.Raw? && !v.Str? ==> r == Err(TypeError)
  {
    match v
    case Raw(bs) => Ok(bs)
    case Str(s) => StrictRoundTrip(s); Ok(Encode(s))
    case _ => Err(TypeError)
  }

  /** InputManager.seq: sanitise, send once, update once. */
  function Send(t: Term, env: Env, v: Py.Value): (r: Run<()>)
    ensures Sanitize(v).Err? ==> r == Run(t, Err(TypeError))
    ensures Sanitize(v).Ok? ==>
      && r.r.Ok? && r.t.updates == t.updates + 1
      && r.t.log == t.log + [Sent(Sanitize(v).value), Updated(|Recv(env.polls(t.updates))|)]
      && Sends(r.t.log) == Sends(t.log) + [Sanitize(v).value]
      && r.t.closed == t.closed && r.t.lineEnd == t.lineEnd && r.t.clockReads == t.clockReads
    ensures r.t.cursor == t.cursor && r.t.keystrokes == t.keystrokes
  {
    match Sanitize(v)
    case Err(e) => Run(t, Err(e))
    case Ok(bs) =>
      SendsSnoc(t.log, Sent(bs));
      Run(Update(t.(log := t.log + [Sent(bs)]), env), Ok(()))
  }

  /** The line_end getter: the stored bytes decoded (UnicodeDecodeError if they are not UTF-8). */
  function LineEnd(t: Term): (r: Result<string, Exc>)
    ensures r.Ok? <==> DecodeStrict(t.lineEnd).Some?
  {
    match DecodeStrict(t.lineEnd)
    case Some(s) => Ok(s)
    case None => Err(UnicodeDecodeError)
  }

  /** The line_end setter: the value is stored sanitised. */
  function SetLineEnd(t: Term, v: Py.Value): (r: Run<()>)
    ensures r.r.Ok? <==> v.Raw? || v.Str?
    ensures r.r.Err? ==> r.t == t
    ensures v.Str? ==> LineEnd(r.t) == Ok(v.s)
    ensures r.r.Ok? ==> r.t == t.(lineEnd := Sanitize(v).value)
  {
    match Sanitize(v)
    case Err(e) => Run(t, Err(e))
    case Ok(bs) => Run(t.(lineEnd := bs), Ok(()))
  }

  /** InputManager.line: the data, then the line end, each through `seq`. */
  function Line(t: Term, env: Env, v: Py.Value): (r: Run<()>)
    ensures Sanitize(v).Err? ==> r == Run(t, Err(TypeError))
    ensures Sanitize(v).Ok? && LineEnd(t).Ok? ==>
      && r.r.Ok? && r.t.updates == t.updates + 2
      && r.t.log == t.log + [Sent(Sanitize(v).value), Updated(|Recv(env.polls(t.updates))|),
                          Sent(Encode(LineEnd(t).value)), Updated(|Recv(env.polls(t.updates + 1))|)]
      && Sends(r.t.log) == Sends(t.log) + [Sanitize(v).value, Encode(LineEnd(t).value)]
    ensures Sanitize(v).Ok? && LineEnd(t).Err? ==>
      r.r == Err(UnicodeDecodeError) && Sends(r.t.log) == Sends(t.log) + [Sanitize(v).value]
    ensures r.t.closed == t.closed && r.t.lineEnd == t.lineEnd
  {
    var first := Send(t, env, v);
    if first.r.Err? then first
    else
      match LineEnd(first.t)
      case Err(e) => Run(first.t, Err(e))
      case Ok(le) =>
        var second := Send(first.t, env, Py.Str(le));
        assert Sanitize(Py.Str(le)) == Ok(Encode(le));
        LineLog(t.log, first.t.log, second.t.log, Sanitize(v).value, Encode(le),
                |Recv(env.polls(t.updates))|, |Recv(env.polls(t.updates + 1))|);
        second
  }

  /** Two sends in a row, each followed by its update, as one log and one list of sent data. */
  lemma LineLog(log0: seq<Event>, log1: seq<Event>, log2: seq<Event>, d1: Bytes, d2: Bytes, n1: nat, n2: nat)
    requires log1 == log0 + [Sent(d1), Updated(n1)] && Sends(log1) == Sends(log0) + [d1]
    requires log2 == log1 + [Sent(d2), Updated(n2)] && Sends(log2) == Sends(log1) + [d2]
    ensures log2 == log0 + [Sent(d1), Updated(n1), Sent(d2), Updated(n2)]
    ensures Sends(log2) == Sends(log0) + [d1, d2]
  {
    assert log0 + [Sent(d1), Updated(n1)] + [Sent(d2), Updated(n2)] == log0 + [Sent(d1), Updated(n1), Sent(d2), Updated(n2)];
    assert Sends(log0) + [d1] + [d2] == Sends(log0) + [d1, d2];
  }

  /** The row numbers 0 .. n - 1. */
  function RowSet(n: nat): (r: set<int>)
    ensures forall i :: i in r <==> 0 <= i < n
  {
    if n == 0 then {} else RowSet(n - 1) + {n - 1}
  }

  /** pyte's Screen.reset: blank rows, cursor home, every row dirty. */
  function Reset(t: Term): Term {
    Term(BlankDisplay(), RowSet(Rows), Pos(0, 0), t.closed, t.lineEnd, t.log + [ScreenReset],
         t.updates, t.clockReads, t.keystrokes)
  }

  /** SSHTerminal.close: close the shell, then reset the screen. */
  function Close(t: Term): (r: Term)
    ensures r.closed
    ensures r.log == t.log + [ShellClosed, ScreenReset]
    ensures r.lines == BlankDisplay() && r.cursor == Pos(0, 0)
    ensures forall i :: 0 <= i < Rows <==> i in r.dirty
    ensures Sends(r.log) == Sends(t.log)
  {
    SendsSnoc(t.log, ShellClosed);
    SendsSnoc(t.log + [ShellClosed], ScreenReset);
    assert t.log + [ShellClosed] + [ScreenReset] == t.log + [ShellClosed, ScreenReset];
    Reset(Term(t.lines, t.dirty, t.cursor, true, t.lineEnd, t.log + [ShellClosed],
               t.updates, t.clockReads, t.keystrokes))
  }

  /** A freshly opened terminal: line end '\n', then one update (SSHTerminal.__init__). */
  function Open(env: Env): (r: Term)
    ensures !r.closed && LineEnd(r) == Ok("\n") && r.updates == 1 && Sends(r.log) == []
  {
    var t0 := Term(BlankDisplay(), {}, Pos(0, 0), false, Encode("\n"), [], 0, 0, 0);
    StrictRoundTrip("\n");
    Update(t0, env)
  }
}
