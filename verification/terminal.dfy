/**
 * AV2000Terminal (av2000_terminator/terminal.py): the closed-session guard, the
 * text rows, the back-key choice, the bounded exit protocol, sending lines and
 * key sequences, and waiting for the screen to become ready against a clock.
 */
module Terminal {
  import opened Wrappers
  import opened PyText
  import opened Utf8
  import opened Errors
  import opened Session
  import Keys
  import Py

  const MaxExitIterations: nat := 20
  const ReturnChar: string := "\r"
  const PageLoadTimeout: int := 4

  /** The `ensure_open` decorator: a closed terminal raises DriverClosed and nothing happens. */
  predicate Refused<T>(t: Term, r: Run<T>) {
    r == Run(t, Err(DriverClosed))
  }

  // ---------------------------------------------------------------- text rows

  predicate Blank(row: string) {
    Strip(row) == []
  }

  /** `text_lines`: the rows whose stripped text is not empty, in screen order. */
  function TextLines(lines: seq<string>): (r: seq<string>)
    ensures |r| <= |lines|
    ensures forall i :: 0 <= i < |r| ==> !Blank(r[i])
  {
    if lines == [] then []
    else if Blank(lines[0]) then TextLines(lines[1..])
    else [lines[0]] + TextLines(lines[1..])
  }

  /** Filtering commutes with concatenation. */
  lemma {:induction false} TextLinesAppend(a: seq<string>, b: seq<string>)
    ensures TextLines(a + b) == TextLines(a) + TextLines(b)
  {
    if a == [] {
      assert a + b == b;
    } else {
      var ab := a + b;
      TailOfAppend(a, b);
      TextLinesAppend(a[1..], b);
      var l, r := TextLines(a[1..]), TextLines(b);
      if !Blank(a[0]) {
        assert [a[0]] + (l + r) == ([a[0]] + l) + r;
      }
    }
  }

  lemma TailOfAppend(a: seq<string>, b: seq<string>)
    requires a != []
    ensures (a + b)[0] == a[0] && (a + b)[1..] == a[1..] + b
  {
  }

  /** Every non-blank row survives. */
  lemma {:induction false} TextLinesKeepsRow(lines: seq<string>, i: nat)
    requires i < |lines| && !Blank(lines[i])
    ensures lines[i] in TextLines(lines)
    decreases i
  {
    if i == 0 {
      assert TextLines(lines) == [lines[0]] + TextLines(lines[1..]);
    } else {
      assert lines[i] == lines[1..][i - 1];
      TextLinesKeepsRow(lines[1..], i - 1);
      assert TextLines(lines) == (if Blank(lines[0]) then [] else [lines[0]]) + TextLines(lines[1..]);
    }
  }

  /** A screen without blank rows is kept whole. */
  lemma {:induction false} TextLinesAllText(lines: seq<string>)
    requires forall i :: 0 <= i < |lines| ==> !Blank(lines[i])
    ensures TextLines(lines) == lines
  {
    if lines != [] {
      var rest := lines[1..];
      assert forall i :: 0 <= i < |rest| ==> !Blank(rest[i]) by {
        forall i | 0 <= i < |rest| ensures !Blank(rest[i]) {
          assert rest[i] == lines[i + 1];
        }
      }
      TextLinesAllText(rest);
      assert lines == [lines[0]] + rest;
    }
  }

  /** Every non-blank row survives, and so does every row of an all-text screen. */
  lemma TextLinesKeeps(lines: seq<string>)
    ensures forall i :: 0 <= i < |lines| && !Blank(lines[i]) ==> lines[i] in TextLines(lines)
    ensures (forall i :: 0 <= i < |lines| ==> !Blank(lines[i])) ==> TextLines(lines) == lines
  {
    forall i | 0 <= i < |lines| && !Blank(lines[i]) ensures lines[i] in TextLines(lines) {
      TextLinesKeepsRow(lines, i);
    }
    if forall i :: 0 <= i < |lines| ==> !Blank(lines[i]) {
      TextLinesAllText(lines);
    }
  }

  /** A row is blank exactly when it is whitespace only. */
  lemma BlankIsAllSpace(row: string)
    ensures Blank(row) <==> AllSpace(row)
  {
    StripEmptyIffBlank(row);
  }

  /** Row i is not blank and every row below it is. */
  predicate LastNonBlank(lines: seq<string>, i: int) {
    0 <= i < |lines| && !Blank(lines[i]) && forall j :: i < j < |lines| ==> Blank(lines[j])
  }

  predicate AllBlank(lines: seq<string>) {
    forall i :: 0 <= i < |lines| ==> Blank(lines[i])
  }

  /** The filtered rows are empty exactly when every row is blank. */
  lemma {:induction false} NoTextAllBlank(lines: seq<string>)
    ensures TextLines(lines) == [] <==> AllBlank(lines)
  {
    if lines != [] {
      NoTextAllBlank(lines[1..]);
      assert forall i :: 0 < i < |lines| ==> lines[i] == lines[1..][i - 1];
    }
  }

  /** Shifting a last non-blank row past a row put in front. */
  lemma LastNonBlankCons(lines: seq<string>, i: int)
    requires lines != [] && LastNonBlank(lines[1..], i)
    ensures LastNonBlank(lines, i + 1)
  {
    assert forall j :: i + 1 < j < |lines| ==> lines[j] == lines[1..][j - 1];
  }

  /** The last filtered row is the last non-blank row of the screen. */
  lemma {:induction false} LastTextRow(lines: seq<string>)
    requires TextLines(lines) != []
    ensures exists i :: LastNonBlank(lines, i) && TextLines(lines)[|TextLines(lines)| - 1] == lines[i]
  {
    var rest := lines[1..];
    if TextLines(rest) != [] {
      LastTextRow(rest);
      var i :| LastNonBlank(rest, i) && TextLines(rest)[|TextLines(rest)| - 1] == rest[i];
      LastNonBlankCons(lines, i);
      assert TextLines(lines)[|TextLines(lines)| - 1] == TextLines(rest)[|TextLines(rest)| - 1];
    } else {
      assert !Blank(lines[0]) && TextLines(lines) == [lines[0]];
      NoTextAllBlank(rest);
      assert forall j :: 0 < j < |lines| ==> lines[j] == rest[j - 1];
      assert LastNonBlank(lines, 0);
    }
  }

  /**
   * `text and text[-1] or ''`: the last row of the screen that is not blank,
   * and '' exactly when every row is.
   */
  function LastLine(lines: seq<string>): (r: string)
    ensures r == "" <==> AllBlank(lines)
    ensures r != "" ==> exists i :: LastNonBlank(lines, i) && r == lines[i]
  {
    NoTextAllBlank(lines);
    var text := TextLines(lines);
    if text == [] then "" else LastTextRow(lines); text[|text| - 1]
  }

  // ---------------------------------------------------------------- back key

  /** The three patterns get_back_key matches against the last text row. */
  datatype Pattern =
    | FinePat     // .*\s[Ff]ine\s
    | EscPat      // .*\s[Ee]sc\s
    | F10Pat      // .*\sF10\s+Uscita

  /** No newline among the first k characters. */
  predicate NoNewlineBefore(s: string, k: int) {
    forall m :: 0 <= m < k && m < |s| ==> s[m] != '\n'
  }

  /** `\s w \s` starting at position i. */
  predicate WordAt(s: string, i: int, w: string) {
    0 <= i && i + |w| + 2 <= |s| && IsSpace(s[i]) && s[i + 1..i + 1 + |w|] == w && IsSpace(s[i + 1 + |w|])
  }

  /** `\s+Uscita` starting at position p. */
  predicate SpacesThenUscita(s: string, p: int) {
    0 <= p <= |s| && exists j :: p < j <= |s| && AllSpace(s[p..j]) && StartsWith(s[j..], "Uscita")
  }

  /** The part of a pattern after `.*`, matched at position i. */
  predicate TailAt(pat: Pattern, s: string, i: int) {
    match pat
    case FinePat => WordAt(s, i, "Fine") || WordAt(s, i, "fine")
    case EscPat => WordAt(s, i, "Esc") || WordAt(s, i, "esc")
    case F10Pat => 0 <= i && i + 4 <= |s| && IsSpace(s[i]) && s[i + 1..i + 4] == "F10" && SpacesThenUscita(s, i + 4)
  }

  /** `re.match`: `.*` (which stops at a newline) followed by the tail. */
  predicate Matches(pat: Pattern, s: string) {
    exists i :: 0 <= i < |s| && NoNewlineBefore(s, i) && TailAt(pat, s, i)
  }

  /** The tail test as a direct computation: the spaces are skipped greedily. */
  predicate TailHere(pat: Pattern, s: string, i: nat)
    requires i < |s|
  {
    match pat
    case FinePat => WordAt(s, i, "Fine") || WordAt(s, i, "fine")
    case EscPat => WordAt(s, i, "Esc") || WordAt(s, i, "esc")
    case F10Pat =>
      i + 5 <= |s| && IsSpace(s[i]) && s[i + 1..i + 4] == "F10" && IsSpace(s[i + 4]) &&
      StartsWith(s[SkipSpaces(s, i + 4)..], "Uscita")
  }

  lemma TailHereIsTail(pat: Pattern, s: string, i: nat)
    requires i < |s|
    ensures TailHere(pat, s, i) <==> TailAt(pat, s, i)
  {
    if pat == F10Pat && i + 4 <= |s| {
      var p := i + 4;
      var k := SkipSpaces(s, p);
      if TailHere(pat, s, i) {
        assert AllSpace(s[p..k]) by {
          forall m | 0 <= m < k - p ensures IsSpace(s[p..k][m]) {
            assert s[p..k][m] == s[p + m];
          }
        }
        assert p < k;
      }
      if TailAt(pat, s, i) {
        var j :| p < j <= |s| && AllSpace(s[p..j]) && StartsWith(s[j..], "Uscita");
        assert IsSpace(s[p..j][0]);
        assert !IsSpace(s[j]) by { assert s[j..][0] == 'U'; }
        // no non-space before j, so the greedy skip stops exactly at j
        forall m | p <= m < j ensures IsSpace(s[m]) {
          assert s[p..j][m - p] == s[m];
        }
        assert k == j;
      }
    }
  }

  /** Scan from position i for a match, stopping after a newline. */
  function Scan(pat: Pattern, s: string, i: nat): bool
    requires i <= |s|
    decreases |s| - i
  {
    if i == |s| then false
    else TailHere(pat, s, i) || (s[i] != '\n' && Scan(pat, s, i + 1))
  }

  lemma {:induction false} ScanFinds(pat: Pattern, s: string, i: nat)
    requires i <= |s| && NoNewlineBefore(s, i)
    ensures Scan(pat, s, i) <==> exists k :: i <= k < |s| && NoNewlineBefore(s, k) && TailAt(pat, s, k)
    decreases |s| - i
  {
    if i < |s| {
      TailHereIsTail(pat, s, i);
      if s[i] != '\n' {
        ScanFinds(pat, s, i + 1);
      } else {
        forall k | i < k < |s| ensures !NoNewlineBefore(s, k) {
          assert s[i] == '\n';
        }
      }
    }
  }

  /** The scan decides the regular-expression match. */
  lemma ScanMatches(pat: Pattern, s: string)
    ensures Scan(pat, s, 0) <==> Matches(pat, s)
  {
    ScanFinds(pat, s, 0);
  }

  /** The back key for a last text row: F10 over ESC over END, or none. */
  function BackKeyFor(last: string): (r: Option<string>)
    ensures Matches(F10Pat, last) ==> r == Some(Keys.F[10])
    ensures !Matches(F10Pat, last) && Matches(EscPat, last) ==> r == Some(Keys.Esc)
    ensures !Matches(F10Pat, last) && !Matches(EscPat, last) && Matches(FinePat, last) ==> r == Some(Keys.End)
    ensures !Matches(F10Pat, last) && !Matches(EscPat, last) && !Matches(FinePat, last) ==> r == None
  {
    ScanMatches(F10Pat, last);
    ScanMatches(EscPat, last);
    ScanMatches(FinePat, last);
    if Scan(F10Pat, last, 0) then Some(Keys.F[10])
    else if Scan(EscPat, last, 0) then Some(Keys.Esc)
    else if Scan(FinePat, last, 0) then Some(Keys.End)
    else None
  }

  /** `get_back_key`. */
  function BackKey(t: Term): (r: Run<Option<string>>)
    ensures t.closed ==> Refused(t, r)
    ensures !t.closed ==> r == Run(t, Ok(BackKeyFor(LastLine(t.lines))))
  {
    if t.closed then Run(t, Err(DriverClosed)) else Run(t, Ok(BackKeyFor(LastLine(t.lines))))
  }

  // ---------------------------------------------------------------- sending

  /** `update`, guarded. */
  function Refresh(t: Term, env: Env): (r: Run<()>)
    ensures t.closed ==> Refused(t, r)
    ensures !t.closed ==> r == Run(Update(t, env), Ok(()))
  {
    if t.closed then Run(t, Err(DriverClosed)) else Run(Update(t, env), Ok(()))
  }

  /** `send_seq(d)`: d is sent unchanged, as one sequence. */
  function SendSeq(t: Term, env: Env, data: string): (r: Run<()>)
    ensures t.closed ==> Refused(t, r)
    ensures !t.closed ==>
      && r.r.Ok? && !r.t.closed && r.t.updates == t.updates + 1
      && Sends(r.t.log) == Sends(t.log) + [Encode(data)]
    ensures r.t.cursor == t.cursor && r.t.keystrokes == t.keystrokes
  {
    if t.closed then Run(t, Err(DriverClosed))
    else
      Send(t, env, Py.Str(data))
  }

  /** The exact log entries one sequence adds: the bytes sent, then one screen update. */
  lemma SendSeqLog(t: Term, env: Env, data: string)
    ensures !t.closed ==> SendSeq(t, env, data).t.log == t.log + [Sent(Encode(data)), Updated(|Recv(env.polls(t.updates))|)]
  {
  }

  /** `send_line(d)`: the single sequence d + '\r'. */
  function SendLine(t: Term, env: Env, data: string): (r: Run<()>)
    ensures t.closed ==> Refused(t, r)
    ensures !t.closed ==>
      && r.r.Ok? && !r.t.closed && r.t.updates == t.updates + 1
      && Sends(r.t.log) == Sends(t.log) + [Encode(data + ReturnChar)]
  {
    SendSeq(t, env, data + ReturnChar)
  }

  /** `close`, guarded. */
  function CloseTerm(t: Term): (r: Run<()>)
    ensures t.closed ==> Refused(t, r)
    ensures !t.closed ==> r == Run(Close(t), Ok(()))
  {
    if t.closed then Run(t, Err(DriverClosed)) else Run(Close(t), Ok(()))
  }

  // ---------------------------------------------------------------- exit

  /**
   * The `exit` loop with `left` iterations to go: read the back key, send it if
   * there is one, stop after F10, otherwise update and go round again.
   * Returns the terminal and the number of iterations run.
   */
  function ExitLoop(t: Term, env: Env, left: nat): (r: (Term, nat))
    requires !t.closed
    ensures !r.0.closed && r.1 <= left
    ensures |Sends(r.0.log)| <= |Sends(t.log)| + r.1
    ensures r.0.updates <= t.updates + 2 * r.1
    decreases left
  {
    if left == 0 then (t, 0)
    else
      var step := ExitStep(t, env);
      if step.1 then (step.0, 1)
      else
        var rest := ExitLoop(step.0, env, left - 1);
        (rest.0, rest.1 + 1)
  }

  /**
   * One iteration of the exit loop: send the back key if there is one; report
   * whether it was F10 (the loop stops), otherwise update.
   */
  function ExitStep(t: Term, env: Env): (r: (Term, bool))
    requires !t.closed
    ensures !r.0.closed
    ensures r.1 <==> BackKeyFor(LastLine(t.lines)) == Some(Keys.F[10])
    ensures BackKeyFor(LastLine(t.lines)).None? ==> r.0 == Update(t, env) && Sends(r.0.log) == Sends(t.log)
    ensures BackKeyFor(LastLine(t.lines)).Some? ==>
      Sends(r.0.log) == Sends(t.log) + [Encode(BackKeyFor(LastLine(t.lines)).value)]
    ensures r.0.updates <= t.updates + 2
  {
    match BackKeyFor(LastLine(t.lines))
    case None => (Update(t, env), false)
    case Some(key) =>
      var t1 := SendSeq(t, env, key).t;
      if key == Keys.F[10] then (t1, true)
      else (Update(t1, env), false)
  }

  /** `exit`: at most 20 iterations, then always close. */
  function Exit(t: Term, env: Env): (r: Run<()>)
    ensures t.closed ==> Refused(t, r)
    ensures !t.closed ==> r.r.Ok? && r.t.closed && |Sends(r.t.log)| <= |Sends(t.log)| + MaxExitIterations
  {
    if t.closed then Run(t, Err(DriverClosed))
    else
      CloseTerm(ExitLoop(t, env, MaxExitIterations).0)
  }

  /** When the screen offers F10 ... Uscita, exit sends F10 once and closes straight away. */
  lemma ExitOnF10(t: Term, env: Env)
    requires !t.closed && Matches(F10Pat, LastLine(t.lines))
    ensures Exit(t, env) == CloseTerm(SendSeq(t, env, Keys.F[10]).t)
    ensures Sends(Exit(t, env).t.log) == Sends(t.log) + [Encode(Keys.F[10])]
  {
  }

  /** When no back key is ever offered, exit sends nothing and runs all 20 iterations. */
  lemma {:induction false} ExitWithoutKeys(t: Term, env: Env, left: nat)
    requires !t.closed
    requires NoBackKeys(t, env, left)
    ensures ExitLoop(t, env, left).1 == left
    ensures Sends(ExitLoop(t, env, left).0.log) == Sends(t.log)
    ensures ExitLoop(t, env, left).0.updates == t.updates + left
    decreases left
  {
    if left > 0 {
      var t2 := Update(t, env);
      assert t2.updates == t.updates + 1 && Sends(t2.log) == Sends(t.log);
      ExitLoopUpdates(t, env, left);
      ExitWithoutKeys(t2, env, left - 1);
    } else {
      assert ExitLoop(t, env, left) == (t, 0);
    }
  }

  /** No back key is offered on the screen now, nor after any of the next `left` updates. */
  predicate NoBackKeys(t: Term, env: Env, left: nat)
    decreases left
  {
    && BackKeyFor(LastLine(t.lines)) == None
    && (left > 0 ==> NoBackKeys(Update(t, env), env, left - 1))
  }

  /** An iteration on a screen without a back key only updates, and the loop goes on. */
  lemma ExitLoopUpdates(t: Term, env: Env, left: nat)
    requires !t.closed && left > 0 && BackKeyFor(LastLine(t.lines)) == None
    ensures ExitLoop(t, env, left).0 == ExitLoop(Update(t, env), env, left - 1).0
    ensures ExitLoop(t, env, left).1 == ExitLoop(Update(t, env), env, left - 1).1 + 1
  {
    assert ExitStep(t, env) == (Update(t, env), false);
  }

  // ---------------------------------------------------------------- wait_ready

  /** A readiness test looks at the rows and at the rows touched by the last update. */
  type Ready = (Display, set<int>) -> bool

  /**
   * The `while not is_ready()` loop of wait_ready, with `start` the first clock
   * reading: check, read the clock, time out if strictly more than `timeout` has
   * elapsed, update, check again.
   */
  function WaitLoop(t: Term, env: Env, ready: Ready, start: int, timeout: int): (r: Run<()>)
    requires !t.closed && Clock(env, t.clockReads) > start - 1
    ensures Waited(t, env, ready, start, timeout, r)
    decreases timeout - (Clock(env, t.clockReads) - start) + 1
  {
    if ready(t.lines, t.dirty) then Run(t, Ok(()))
    else
      var now := Clock(env, t.clockReads);
      var t1 := t.(clockReads := t.clockReads + 1);
      if now - start > timeout then Run(t1, Err(LoadingTimeout("Timeout waiting for page to load")))
      else
        var t2 := Update(t1, env);
        assert Clock(env, t2.clockReads) > now;
        var r2 := WaitLoop(t2, env, ready, start, timeout);
        WaitStep(t, t2, env, ready, start, timeout, r2);
        r2
  }

  /**
   * What the loop promises from state `t`: the driver stays open and sends nothing;
   * on success the page is ready and every clock reading was followed by an update;
   * on timeout the page is not ready and the last reading is more than `timeout`
   * after `start`; a page ready at once ends the loop without reading the clock.
   */
  predicate Waited(t: Term, env: Env, ready: Ready, start: int, timeout: int, r: Run<()>) {
    && !r.t.closed && Sends(r.t.log) == Sends(t.log)
    && (r.r.Ok? ==>
          && ready(r.t.lines, r.t.dirty)
          && r.t.updates - t.updates == r.t.clockReads - t.clockReads)
    && (r.r.Err? ==>
          && r.r.error == LoadingTimeout("Timeout waiting for page to load")
          && r.t.clockReads >= 1
          && r.t.updates - t.updates + 1 == r.t.clockReads - t.clockReads
          && !ready(r.t.lines, r.t.dirty)
          && Clock(env, r.t.clockReads - 1) - start > timeout)
    && (ready(t.lines, t.dirty) ==> r == Run(t, Ok(())))
  }

  /** One clock reading and one update in front of a run keep its promise. */
  lemma WaitStep(t: Term, t2: Term, env: Env, ready: Ready, start: int, timeout: int, r: Run<()>)
    requires !ready(t.lines, t.dirty)
    requires t2.clockReads == t.clockReads + 1 && t2.updates == t.updates + 1
    requires Sends(t2.log) == Sends(t.log)
    requires Waited(t2, env, ready, start, timeout, r)
    ensures Waited(t, env, ready, start, timeout, r)
  {
  }

  /** `wait_ready(is_ready, timeout)`: one clock reading, then the loop. */
  function WaitReady(t: Term, env: Env, ready: Ready, timeout: int): (r: Run<()>)
    ensures t.closed ==> Refused(t, r)
    ensures !t.closed ==> !r.t.closed && Sends(r.t.log) == Sends(t.log)
    ensures !t.closed && ready(t.lines, t.dirty) ==>
      r == Run(t.(clockReads := t.clockReads + 1), Ok(()))
    ensures !t.closed && r.r.Ok? ==> ready(r.t.lines, r.t.dirty)
    ensures !t.closed && r.r.Err? ==>
      && r.r.error.LoadingTimeout? && r.t.clockReads >= 1
      && Clock(env, r.t.clockReads - 1) - Clock(env, t.clockReads) > timeout
  {
    if t.closed then Run(t, Err(DriverClosed))
    else
      var start := Clock(env, t.clockReads);
      WaitLoop(t.(clockReads := t.clockReads + 1), env, ready, start, timeout)
  }

  // ---------------------------------------------------------------- start-up

  /** The shell command that starts the program, and the terminal type it sets. */
  const Command: string := "TERM=putty ./av2000"

  /** The SSH terminal opens (one update) and the start command goes out as a line. */
  function Login(env: Env): (r: Run<()>)
    ensures r.r.Ok? && !r.t.closed
    ensures Sends(r.t.log) == [Encode(Command), Encode("\n")]
  {
    var t0 := Open(env);
    assert Sanitize(Py.Str(Command)) == Ok(Encode(Command));
    Line(t0, env, Py.Str(Command))
  }

  /**
   * The start of AV2000Terminal: the start command as a line, then the
   * company id and a carriage return.
   */
  function Startup(env: Env, companyId: int): (r: Run<()>)
    ensures r.r.Ok? && !r.t.closed
    ensures Sends(r.t.log) == [Encode(Command), Encode("\n"), Encode(IntToStr(companyId) + ReturnChar)]
  {
    var l := Login(env);
    SendLine(l.t, env, IntToStr(companyId))
  }
}
