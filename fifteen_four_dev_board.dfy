/**
 * The 15.4 dev board node (silk/node/fifteen_four_dev_board.py and its
 * older copy src/node/fifteen_four_dev_board.py), without its process and
 * network-namespace plumbing: the monitor that reads wpantund's output line
 * by line, the check of the probe's flash logs, the flash helpers with the
 * shell commands they issue, the choice of flash helper in
 * `firmware_update`, the search for an address with a given prefix and the
 * wpantund command line.
 */
module DevBoard {
  import opened PyCore
  import opened CommandLine
  import W = WpanTableParser
  import HwModule

  // ========================================================== the monitor

  /** The characters a state group of the state-change pattern accepts. */
  datatype StateChars =
    | Dots      // `[.]+` as written: a run of literal dots
    | NotQuote  // `[^"]+`: the quoted state names the pattern is meant for

  predicate InClass(c: char, k: StateChars)
  {
    match k
    case Dots => c == '.'
    case NotQuote => c != '"'
  }

  /** The length of the run of characters of class `k` that `s` starts with. */
  function ClassRun(s: string, k: StateChars): (n: nat)
    ensures n <= |s|
    ensures forall i :: 0 <= i < n ==> InClass(s[i], k)
    ensures n < |s| ==> !InClass(s[n], k)
  {
    if s != [] && InClass(s[0], k) then 1 + ClassRun(s[1..], k) else 0
  }

  const StateHead := "State change: \""
  const StateMid := "\" -> \""
  const Fault := "uninitialized:fault"

  /**
   * The new state captured by a match of the pattern that starts where `s`
   * starts. Neither class holds `"`, so each group can only be the whole run
   * up to the next character, which must then be the quote that follows it.
   */
  function MatchHere(s: string, k: StateChars): (r: Option<string>)
    ensures r.Some? ==> r.value != [] && forall i :: 0 <= i < |r.value| ==> InClass(r.value[i], k)
  {
    if !StartsWith(s, StateHead) then None
    else
      var t := s[|StateHead|..];
      var a := ClassRun(t, k);
      if a == 0 || !StartsWith(t[a..], StateMid) then None
      else
        var u := t[a + |StateMid|..];
        var b := ClassRun(u, k);
        if b == 0 || !StartsWith(u[b..], "\"") then None
        else Some(u[..b])
  }

  /** `state_regex.search(line)` from position `i` on: the leftmost match's new state. */
  function SearchFrom(line: string, k: StateChars, i: nat): (r: Option<string>)
    requires i <= |line|
    ensures r.Some? ==> r.value != [] && forall j :: 0 <= j < |r.value| ==> InClass(r.value[j], k)
    decreases |line| - i
  {
    var m := MatchHere(line[i..], k);
    if m.Some? then m
    else if i == |line| then None
    else SearchFrom(line, k, i + 1)
  }

  /** When the search from `i` finds nothing, the pattern matches at no position from `i` on. */
  lemma {:induction false} SearchFromNone(line: string, k: StateChars, i: nat)
    requires i <= |line| && SearchFrom(line, k, i).None?
    ensures forall j :: i <= j <= |line| ==> MatchHere(line[j..], k).None?
    decreases |line| - i
  {
    forall j | i <= j <= |line|
      ensures MatchHere(line[j..], k).None?
    {
      if j > i {
        SearchFromNone(line, k, i + 1);
      }
    }
  }

  /** When the search from `i` finds a state, it is the one of the leftmost position from `i` on where the pattern matches. */
  lemma {:induction false} SearchFromLeftmost(line: string, k: StateChars, i: nat) returns (j: nat)
    requires i <= |line| && SearchFrom(line, k, i).Some?
    ensures i <= j <= |line| && MatchHere(line[j..], k) == SearchFrom(line, k, i)
    ensures forall j' :: i <= j' < j ==> MatchHere(line[j'..], k).None?
    decreases |line| - i
  {
    var m := MatchHere(line[i..], k);
    if m.None? {
      assert i < |line| && SearchFrom(line, k, i) == SearchFrom(line, k, i + 1);
      j := SearchFromLeftmost(line, k, i + 1);
      NoneBefore(line, k, i, j);
    } else {
      j := i;
    }
  }

  lemma NoneBefore(line: string, k: StateChars, i: nat, j: nat)
    requires i < j <= |line| && MatchHere(line[i..], k).None?
    requires forall j' :: i + 1 <= j' < j ==> MatchHere(line[j'..], k).None?
    ensures forall j' :: i <= j' < j ==> MatchHere(line[j'..], k).None?
  {
  }

  function StateSearch(line: string, k: StateChars): Option<string>
  {
    SearchFrom(line, k, 0)
  }

  /** The monitor's fields. */
  datatype Monitor = Monitor(running: bool, crashed: bool, state: Option<string>, framingErrors: nat)

  /** The class attributes a new monitor starts from. */
  const Initial := Monitor(false, false, None, 0)

  /** A line that reports a state change. */
  predicate StateLine(line: string, k: StateChars)
  {
    StateSearch(line, k).Some?
  }

  /** A line that reports a crash, and is not a state change line. */
  predicate FatalLine(line: string, k: StateChars)
  {
    !StateLine(line, k) && Contains(line, "FATAL ERROR")
  }

  /** A line that is neither, so that the NCP and framing checks see it. */
  predicate PlainLine(line: string, k: StateChars)
  {
    !StateLine(line, k) && !Contains(line, "FATAL ERROR")
  }

  /** `subscribeHandle` on one line, as a function of the fields before. */
  function Step(m: Monitor, line: string, k: StateChars): Monitor
  {
    match StateSearch(line, k)
    case Some(s) => m.(state := Some(s), running := if s == Fault then false else m.running)
    case None =>
      if Contains(line, "FATAL ERROR") then m.(crashed := true, running := false)
      else
        m.(running := m.running || Contains(line, "Finished initializing NCP"),
           framingErrors := m.framingErrors + if Contains(line, "Framing error") then 1 else 0)
  }

  /** The monitor after a sequence of lines, in order. */
  function Feed(m: Monitor, lines: seq<string>, k: StateChars): Monitor
    decreases |lines|
  {
    if lines == [] then m else Feed(Step(m, lines[0], k), lines[1..], k)
  }

  /** The framing error lines among `lines` that the counter sees. */
  function FramingCount(lines: seq<string>, k: StateChars): nat
  {
    if lines == [] then 0
    else (if PlainLine(lines[0], k) && Contains(lines[0], "Framing error") then 1 else 0) + FramingCount(lines[1..], k)
  }

  class WpantundMonitor {
    var running: bool
    var crashed: bool
    var state: Option<string>
    var framingErrors: nat
    /** Which pattern the monitor matches state changes with. */
    const chars: StateChars

    function View(): Monitor
      reads this
    {
      Monitor(running, crashed, state, framingErrors)
    }

    constructor (chars: StateChars)
      ensures View() == Initial && this.chars == chars
    {
      running := false;
      crashed := false;
      state := None;
      framingErrors := 0;
      this.chars := chars;
    }

    /**
     * `subscribeHandle(line=...)`: a state change line records the new state
     * (and stops the monitor's `running` on a fault) and nothing else; a
     * crash line sets `crashed`, clears `running` and nothing else; any other
     * line may set `running` and count a framing error, both at once.
     */
    method SubscribeHandle(line: string)
      modifies this
      ensures View() == Step(old(View()), line, chars)
    {
      var m := StateSearch(line, chars);
      if m.Some? {
        state := m;
        if m.value == Fault {
          running := false;
        }
        return;
      }
      if Contains(line, "FATAL ERROR") {
        crashed := true;
        running := false;
        return;
      }
      if Contains(line, "Finished initializing NCP") {
        running := true;
      }
      if Contains(line, "Framing error") {
        framingErrors := framingErrors + 1;
      }
    }
  }

  // ------------------------------------------------------ monitor lemmas

  /** A state change line sets the state and touches nothing but `running`, which it clears only on a fault. */
  lemma StepStateLine(m: Monitor, line: string, k: StateChars)
    requires StateLine(line, k)
    ensures var r := Step(m, line, k);
      r.state == StateSearch(line, k) && r.crashed == m.crashed && r.framingErrors == m.framingErrors &&
      (r.running <==> m.running && r.state != Some(Fault))
  {
  }

  /** A crash line sets `crashed` and clears `running`, whatever else it says. */
  lemma StepFatalLine(m: Monitor, line: string, k: StateChars)
    requires FatalLine(line, k)
    ensures Step(m, line, k) == m.(crashed := true, running := false)
  {
  }

  /**
   * The counter counts exactly the framing error lines that are neither state
   * change nor crash lines, so it never goes down.
   */
  lemma {:induction false} FeedFramingErrors(m: Monitor, lines: seq<string>, k: StateChars)
    ensures Feed(m, lines, k).framingErrors == m.framingErrors + FramingCount(lines, k)
    ensures Feed(m, lines, k).framingErrors >= m.framingErrors
    decreases |lines|
  {
    if lines != [] {
      FeedFramingErrors(Step(m, lines[0], k), lines[1..], k);
    }
  }

  /** `crashed` never goes back: after a run of lines it is set iff it was, or one of the lines was a crash line. */
  lemma {:induction false} FeedCrashed(m: Monitor, lines: seq<string>, k: StateChars)
    ensures Feed(m, lines, k).crashed <==> m.crashed || exists i :: 0 <= i < |lines| && FatalLine(lines[i], k)
    decreases |lines|
  {
    if lines != [] {
      FeedCrashed(Step(m, lines[0], k), lines[1..], k);
      AnyCons(lines, line => FatalLine(line, k));
    }
  }

  /** Some element passes `f` exactly when the first does or some later one does. */
  lemma AnyCons<T>(xs: seq<T>, f: T -> bool)
    requires xs != []
    ensures (exists i :: 0 <= i < |xs| && f(xs[i])) <==> f(xs[0]) || exists i :: 0 <= i < |xs[1..]| && f(xs[1..][i])
  {
    var rest := xs[1..];
    if exists i :: 0 <= i < |rest| && f(rest[i]) {
      var i :| 0 <= i < |rest| && f(rest[i]);
      assert xs[i + 1] == rest[i];
    }
    if exists i :: 0 <= i < |xs| && f(xs[i]) {
      var i :| 0 <= i < |xs| && f(xs[i]);
      if i > 0 {
        assert rest[i - 1] == xs[i];
      }
    }
  }

  /** The state the monitor shows is one a state change line captured, made of the class's characters. */
  lemma {:induction false} FeedState(m: Monitor, lines: seq<string>, k: StateChars)
    requires m.state.None? || forall j :: 0 <= j < |m.state.value| ==> InClass(m.state.value[j], k)
    ensures var s := Feed(m, lines, k).state;
      s.None? || forall j :: 0 <= j < |s.value| ==> InClass(s.value[j], k)
    decreases |lines|
  {
    if lines != [] {
      FeedState(Step(m, lines[0], k), lines[1..], k);
    }
  }

  /** A line without a dot is never a state change line for the pattern as written. */
  lemma {:induction false} DotFreeNoMatch(line: string, i: nat)
    requires i <= |line| && Free(line, '.')
    ensures SearchFrom(line, Dots, i).None?
    decreases |line| - i
  {
    var s := line[i..];
    if StartsWith(s, StateHead) {
      var t := s[|StateHead|..];
      if t != [] {
        assert t[0] == line[i + |StateHead|];
      }
    }
    if i < |line| {
      DotFreeNoMatch(line, i + 1);
    }
  }

  /** The state change line wpantund prints, for states `a` and `b`. */
  function StateChangeLine(a: string, b: string): string
  {
    StateHead + a + StateMid + b + "\""
  }

  /** The quote-free pattern reads the new state of a state change line. */
  lemma StateChangeRead(a: string, b: string)
    requires a != [] && b != [] && Free(a, '"') && Free(b, '"')
    ensures StateSearch(StateChangeLine(a, b), NotQuote) == Some(b)
  {
    var line := StateChangeLine(a, b);
    MatchStateChange(a, b);
    assert line[0..] == line;
  }

  lemma MatchStateChange(a: string, b: string)
    requires a != [] && b != [] && Free(a, '"') && Free(b, '"')
    ensures MatchHere(StateChangeLine(a, b), NotQuote) == Some(b)
  {
    var line := StateChangeLine(a, b);
    var t := line[|StateHead|..];
    assert line[..|StateHead|] == StateHead;
    var rest := StateMid + b + "\"";
    assert t == a + rest;
    assert rest[0] == '"';
    ClassRunPrefix(a, rest, NotQuote);
    assert t[|a|..] == rest;
    assert rest[..|StateMid|] == StateMid;
    var u := t[|a| + |StateMid|..];
    assert u == b + "\"";
    ClassRunPrefix(b, "\"", NotQuote);
    assert u[|b|..] == "\"" && u[..|b|] == b;
  }

  /** A run of class characters followed by a character outside the class. */
  lemma {:induction false} ClassRunPrefix(a: string, rest: string, k: StateChars)
    requires forall i :: 0 <= i < |a| ==> InClass(a[i], k)
    requires rest != [] && !InClass(rest[0], k)
    ensures ClassRun(a + rest, k) == |a|
    decreases |a|
  {
    if a != [] {
      assert (a + rest)[1..] == a[1..] + rest;
      ClassRunPrefix(a[1..], rest, k);
    } else {
      assert a + rest == rest;
    }
  }

  /**
   * As written, the pattern only accepts dots, so the state change line of
   * real state names (which hold none) is not recognised: a fault leaves
   * the state unrecorded and `running` as it was.
   */
  lemma FaultLineMissedAsWritten(m: Monitor, a: string)
    requires a != [] && Free(a, '.') && Free(a, 'F')
    ensures Step(m, StateChangeLine(a, Fault), Dots) == m
  {
    var line := StateChangeLine(a, Fault);
    assert Free(StateHead, '.') && Free(StateMid, '.') && Free(Fault, '.') by {
      assert forall i :: 0 <= i < |StateHead| ==> StateHead[i] != '.';
      assert forall i :: 0 <= i < |StateMid| ==> StateMid[i] != '.';
      assert forall i :: 0 <= i < |Fault| ==> Fault[i] != '.';
    }
    assert Free(StateHead, 'F') && Free(StateMid, 'F') && Free(Fault, 'F') by {
      assert forall i :: 0 <= i < |StateHead| ==> StateHead[i] != 'F';
      assert forall i :: 0 <= i < |StateMid| ==> StateMid[i] != 'F';
      assert forall i :: 0 <= i < |Fault| ==> Fault[i] != 'F';
    }
    CharFreeLine(a, Fault, '.');
    CharFreeLine(a, Fault, 'F');
    DotFreeNoMatch(line, 0);
    FirstCharAbsent(line, "FATAL ERROR");
    FirstCharAbsent(line, "Finished initializing NCP");
    FirstCharAbsent(line, "Framing error");
  }

  /** With the quote-free pattern, the same line records the fault and stops `running`. */
  lemma FaultLineStopsRunning(m: Monitor, a: string)
    requires a != [] && Free(a, '"')
    ensures Step(m, StateChangeLine(a, Fault), NotQuote) == m.(state := Some(Fault), running := false)
  {
    assert Free(Fault, '"') by {
      assert forall i :: 0 <= i < |Fault| ==> Fault[i] != '"';
    }
    StateChangeRead(a, Fault);
  }

  /** A character in neither state nor in the fixed text is nowhere in the line. */
  lemma CharFreeLine(a: string, b: string, c: char)
    requires Free(a, c) && Free(b, c) && Free(StateHead, c) && Free(StateMid, c) && c != '"'
    ensures Free(StateChangeLine(a, b), c)
  {
    var line := StateChangeLine(a, b);
    var n := |StateHead|;
    forall i | 0 <= i < |line| ensures line[i] != c {
      if i < n {
        assert line[i] == StateHead[i];
      } else if i < n + |a| {
        assert line[i] == a[i - n];
      } else if i < n + |a| + |StateMid| {
        assert line[i] == StateMid[i - n - |a|];
      } else if i < n + |a| + |StateMid| + |b| {
        assert line[i] == b[i - n - |a| - |StateMid|];
      }
    }
  }

  /** Text whose first character is missing from `s` does not occur in `s`. */
  lemma FirstCharAbsent(s: string, t: string)
    requires t != [] && Free(s, t[0])
    ensures !Contains(s, t)
  {
    forall i | 0 <= i <= |s| ensures !At(s, i, t) {
    }
  }

  // ==================================================== flashing the board

  const ScriptDone := "Script processing completed"

  /** The probe script finished: some line of its log starts with its completion banner. */
  predicate Completed(log: string)
  {
    exists line :: line in SplitOn(log, '\n') && Banner(line)
  }

  /** `line.startswith('Script processing completed')`. */
  predicate Banner(line: string)
  {
    StartsWith(line, ScriptDone)
  }

  /** `__verify_image_flash(log)`: scans the log line by line for the completion banner. */
  method VerifyImageFlash(log: string) returns (ok: bool)
    ensures ok <==> Completed(log)
  {
    var lines := SplitOn(log, '\n');
    var i := 0;
    while i < |lines|
      invariant 0 <= i <= |lines|
      invariant forall j :: 0 <= j < i ==> !Banner(lines[j])
    {
      if Banner(lines[i]) {
        return true;
      }
      i := i + 1;
    }
    return false;
  }

  /** A log of lines without line breaks is complete exactly when one of its lines starts with the banner. */
  lemma CompletedLog(lines: seq<string>)
    requires lines != [] && forall j :: 0 <= j < |lines| ==> Free(lines[j], '\n')
    ensures Completed(Join("\n", lines)) <==> exists k :: 0 <= k < |lines| && Banner(lines[k])
  {
    var log := Join("\n", lines);
    assert SplitOn(log, '\n') == lines by {
      NewlineJoin(lines);
    }
    CompletedLines(log, lines);
  }

  /** Splitting lines joined with line breaks gives them back. */
  lemma NewlineJoin(lines: seq<string>)
    requires lines != [] && forall j :: 0 <= j < |lines| ==> Free(lines[j], '\n')
    ensures SplitOn(Join("\n", lines), '\n') == lines
  {
    assert "\n" == ['\n'];
    SplitOnJoin(lines, '\n');
  }

  /** A log is complete exactly when one of the lines it splits into starts with the banner. */
  lemma CompletedLines(log: string, lines: seq<string>)
    requires SplitOn(log, '\n') == lines
    ensures Completed(log) <==> exists k :: 0 <= k < |lines| && Banner(lines[k])
  {
    if Completed(log) {
      var line :| line in lines && Banner(line);
      var k :| 0 <= k < |lines| && lines[k] == line;
    }
    if k :| 0 <= k < |lines| && Banner(lines[k]) {
      assert lines[k] in lines;
    }
  }

  /** A one-line log is complete exactly when it starts with the banner. */
  lemma CompletedOneLine(log: string)
    requires Free(log, '\n')
    ensures Completed(log) <==> StartsWith(log, ScriptDone)
  {
    SplitOnJoin([log], '\n');
    assert Join("\n", [log]) == log;
    assert SplitOn(log, '\n') == [log];
    if Banner(log) {
      assert log in SplitOn(log, '\n');
    }
  }

  /** The boards the flash helpers know. */
  datatype Chip = Nrf52840 | Efr32

  /** Work `firmware_update` queues: a signal to a process of the namespace, or a flash. */
  datatype Job = Kill(pid: int) | Flash(chip: Chip, fwFile: string)

  /** A log file the flash helpers write: its directory, name and contents. */
  datatype LogFile = LogFile(dir: string, name: string, data: string)

  const LogPath := "/opt/openthread_test/results/"

  function EraseCommand(shellDir: string, serial: string): string
  {
    shellDir + "nrfjprog.sh " + "--erase-all " + serial
  }

  function FlashCommand(shellDir: string, fwFile: string, serial: string): string
  {
    shellDir + "nrfjprog.sh " + "--flash " + fwFile + " " + serial
  }

  function Efr32Command(shellDir: string, serial: string): string
  {
    shellDir + "shell_flash_efr32.sh " + serial
  }

  /** The log a helper writes when it is given a result directory (`if result_log_path:`). */
  function LogWrite(resultLogPath: Option<string>, name: string, data: string): seq<LogFile>
  {
    if TruthyStr(resultLogPath) then [LogFile(resultLogPath.value, name, data)] else []
  }

  /** `firmware_update`'s choice of flash helper from the firmware file's name. */
  function FlashTarget(tree: HwModule.Tree, fwFile: string): (r: Option<Chip>)
    ensures tree == HwModule.Src ==> r == Some(Nrf52840)
    ensures tree == HwModule.Silk ==>
      (r == Some(Nrf52840) <==> Contains(fwFile, "nrf52840")) &&
      (r == Some(Efr32) <==> !Contains(fwFile, "nrf52840") && Contains(fwFile, "efr32"))
  {
    if tree == HwModule.Src then Some(Nrf52840)
    else if Contains(fwFile, "nrf52840") then Some(Nrf52840)
    else if Contains(fwFile, "efr32") then Some(Efr32)
    else None
  }

  function KillJobs(pids: seq<int>): (r: seq<Job>)
    ensures |r| == |pids| && forall i :: 0 <= i < |pids| ==> r[i] == Kill(pids[i])
  {
    seq(|pids|, i requires 0 <= i < |pids| => Kill(pids[i]))
  }

  /**
   * The board as far as flashing goes: the shell commands it has run, the
   * log files it has written, the work it has queued, and the result of the
   * last flash. The probe's output for each command is a parameter.
   */
  class DevBoardNode {
    var flashResult: bool
    var shell: seq<string>
    var written: seq<LogFile>
    var queued: seq<Job>
    /** `DirectoryPath.get_dir('shell')`. */
    const shellDir: string

    constructor (shellDir: string)
      ensures !flashResult && shell == [] && written == [] && queued == [] && this.shellDir == shellDir
    {
      flashResult := false;
      shell := [];
      written := [];
      queued := [];
      this.shellDir := shellDir;
    }

    /**
     * `image_flash_nrf52840`: erase, then flash; the result, also kept in
     * `flash_result`, is true iff both probe logs report completion. Both
     * logs, joined, go to `nrf52840_flash.log` when a directory is given.
     */
    method ImageFlashNrf52840(serial: string, fwFile: string, resultLogPath: Option<string>, eraseLog: string, flashLog: string)
      returns (ok: bool)
      modifies this
      ensures shell == old(shell) + [EraseCommand(shellDir, serial), FlashCommand(shellDir, fwFile, serial)]
      ensures ok <==> Completed(eraseLog) && Completed(flashLog)
      ensures flashResult == ok
      ensures written == old(written) + LogWrite(resultLogPath, "nrf52840_flash.log", eraseLog + flashLog)
      ensures queued == old(queued)
    {
      var flashRel := true;
      shell := shell + [EraseCommand(shellDir, serial)];
      var ret := eraseLog;
      var done := VerifyImageFlash(eraseLog);
      if !done {
        flashRel := false;
      }
      shell := shell + [FlashCommand(shellDir, fwFile, serial)];
      ret := ret + flashLog;
      done := VerifyImageFlash(flashLog);
      if !done {
        flashRel := false;
      }
      if TruthyStr(resultLogPath) {
        written := written + [LogFile(resultLogPath.value, "nrf52840_flash.log", ret)];
      }
      flashResult := flashRel;
      ok := flashRel;
    }

    /** `image_flash_efr32`: one script run; the result is whether its log reports completion. */
    method ImageFlashEfr32(serial: string, resultLogPath: Option<string>, log: string) returns (ok: bool)
      modifies this
      ensures shell == old(shell) + [Efr32Command(shellDir, serial)]
      ensures ok == Completed(log) && flashResult == ok
      ensures written == old(written) + LogWrite(resultLogPath, "efr32_flash.log", log)
      ensures queued == old(queued)
    {
      var flashRel := true;
      shell := shell + [Efr32Command(shellDir, serial)];
      var done := VerifyImageFlash(log);
      if !done {
        flashRel := false;
      }
      if TruthyStr(resultLogPath) {
        written := written + [LogFile(resultLogPath.value, "efr32_flash.log", log)];
      }
      flashResult := flashRel;
      ok := flashRel;
    }

    /**
     * src's `image_flash`, as written: its log check is a static method that
     * still takes `self`, so calling it with the log alone raises TypeError
     * right after the erase command; nothing is flashed and `flash_result`
     * keeps its value.
     */
    method ImageFlashSrc(serial: string, fwFile: string, resultLogPath: Option<string>, eraseLog: string)
      returns (r: Result<bool>)
      modifies this
      ensures r == Err(TypeError)
      ensures shell == old(shell) + [EraseCommand(shellDir, serial)]
      ensures flashResult == old(flashResult) && written == old(written) && queued == old(queued)
    {
      shell := shell + [EraseCommand(shellDir, serial)];
      r := Err(TypeError);
    }

    /**
     * `firmware_update(fw_file)`: a SIGINT to each process of the namespace,
     * then the flash the file name calls for (silk), or always the nRF52840
     * flash (src).
     */
    method FirmwareUpdate(tree: HwModule.Tree, fwFile: string, pids: seq<int>)
      modifies this
      ensures queued == old(queued) + KillJobs(pids) +
        (if FlashTarget(tree, fwFile).Some? then [Flash(FlashTarget(tree, fwFile).value, fwFile)] else [])
      ensures shell == old(shell) && written == old(written) && flashResult == old(flashResult)
    {
      var i := 0;
      while i < |pids|
        invariant 0 <= i <= |pids|
        invariant queued == old(queued) + KillJobs(pids[..i])
        invariant shell == old(shell) && written == old(written) && flashResult == old(flashResult)
      {
        queued := queued + [Kill(pids[i])];
        assert KillJobs(pids[..i + 1]) == KillJobs(pids[..i]) + [Kill(pids[i])];
        i := i + 1;
      }
      assert pids[..i] == pids;
      var target := FlashTarget(tree, fwFile);
      if target.Some? {
        queued := queued + [Flash(target.value, fwFile)];
      }
    }

    /**
     * A queued flash, when it runs: the DUT serial and a time-stamped
     * directory under the results path go to the helper of its chip. In
     * silk that is the nRF52840 or the EFR32 helper, whose probe logs are
     * `firstLog` (the erase, or the EFR32 script) and `flashLog`; src has
     * only the nRF52840 job, and its `image_flash` raises TypeError after
     * the erase.
     */
    method RunFlash(tree: HwModule.Tree, chip: Chip, fwFile: string, dutSerial: string, stamp: string,
                    firstLog: string, flashLog: string)
      returns (r: Result<bool>)
      requires tree == HwModule.Src ==> chip == Nrf52840
      modifies this
      ensures tree == HwModule.Silk && chip == Nrf52840 ==>
        shell == old(shell) + [EraseCommand(shellDir, dutSerial), FlashCommand(shellDir, fwFile, dutSerial)] &&
        written == old(written) + LogWrite(Some(LogPath + stamp), "nrf52840_flash.log", firstLog + flashLog) &&
        r == Ok(Completed(firstLog) && Completed(flashLog))
      ensures tree == HwModule.Silk && chip == Efr32 ==>
        shell == old(shell) + [Efr32Command(shellDir, dutSerial)] &&
        written == old(written) + LogWrite(Some(LogPath + stamp), "efr32_flash.log", firstLog) &&
        r == Ok(Completed(firstLog))
      ensures tree == HwModule.Silk ==> flashResult == r.value
      ensures tree == HwModule.Src ==>
        r == Err(TypeError) && shell == old(shell) + [EraseCommand(shellDir, dutSerial)] &&
        written == old(written) && flashResult == old(flashResult)
      ensures queued == old(queued)
    {
      var path := Some(LogPath + stamp);
      if tree == HwModule.Src {
        r := ImageFlashSrc(dutSerial, fwFile, path, firstLog);
      } else if chip == Nrf52840 {
        var ok := ImageFlashNrf52840(dutSerial, fwFile, path, firstLog, flashLog);
        r := Ok(ok);
      } else {
        var ok := ImageFlashEfr32(dutSerial, path, firstLog);
        r := Ok(ok);
      }
    }
  }

  /** The two copies choose differently for an EFR32 image: silk flashes an EFR32, src an nRF52840. */
  lemma Efr32ImageChoice(fwFile: string)
    requires Contains(fwFile, "efr32") && !Contains(fwFile, "nrf52840")
    ensures FlashTarget(HwModule.Silk, fwFile) == Some(Efr32)
    ensures FlashTarget(HwModule.Src, fwFile) == Some(Nrf52840)
  {
  }

  // ================================================== addresses by prefix

  /** A prefix ending in `::` (and longer than that) loses its last colon. */
  function TrimPrefix(prefix: string): (p: string)
    ensures StartsWith(prefix, p)
    ensures |prefix| > 2 && prefix[|prefix| - 2..] == "::" ==> |p| == |prefix| - 1
    ensures !(|prefix| > 2 && prefix[|prefix| - 2..] == "::") ==> p == prefix
  {
    if |prefix| > 2 && prefix[|prefix| - 1] == ':' && prefix[|prefix| - 2] == ':' then prefix[..|prefix| - 1]
    else prefix
  }

  /** The first of `addrs` that starts with `p`, or `''` when none does. */
  function FirstWithPrefix(addrs: seq<string>, p: string): (r: string)
    ensures (forall k :: 0 <= k < |addrs| ==> !StartsWith(addrs[k], p)) ==> r == ""
    ensures (exists k :: 0 <= k < |addrs| && StartsWith(addrs[k], p)) ==>
      exists k :: 0 <= k < |addrs| && StartsWith(addrs[k], p) && r == addrs[k] &&
        forall j :: 0 <= j < k ==> !StartsWith(addrs[j], p)
  {
    if addrs == [] then ""
    else if StartsWith(addrs[0], p) then addrs[0]
    else
      var r := FirstWithPrefix(addrs[1..], p);
      assert forall k :: 1 <= k < |addrs| ==> addrs[k] == addrs[1..][k - 1];
      r
  }

  /** `find_ip6_address_with_prefix(prefix)` over the `IPv6:AllAddresses` listing. */
  function FindIp6AddressWithPrefix(prefix: string, listing: string): Result<string>
  {
    var addrs :- W.ParseList(listing);
    Ok(FirstWithPrefix(addrs, TrimPrefix(prefix)))
  }

  /** An address that starts with the prefix as given also matches after the trim: trimming only widens the search. */
  lemma TrimWidens(prefix: string, addr: string)
    requires StartsWith(addr, prefix)
    ensures StartsWith(addr, TrimPrefix(prefix))
  {
    var p := TrimPrefix(prefix);
    assert prefix[..|p|] == p;
    assert addr[..|prefix|][..|p|] == addr[..|p|];
  }

  /** On a listing `wpanctl` printed, the search returns the first listed address with the trimmed prefix, or `''`. */
  lemma FindInListing(prefix: string, addrs: seq<string>, attrs: seq<string>)
    requires |attrs| == |addrs|
    requires forall k :: 0 <= k < |addrs| ==> IsWord(addrs[k]) && Free(attrs[k], '\n')
    requires forall k :: 0 <= k < |addrs| ==> attrs[k] == [] || IsSpace(attrs[k][0])
    ensures FindIp6AddressWithPrefix(prefix, W.Table(W.ListLines(addrs, attrs))) ==
      Ok(FirstWithPrefix(addrs, TrimPrefix(prefix)))
  {
    W.ParseListRoundTrip(addrs, attrs);
  }

  // ================================================= the wpantund command

  const PosixPathSilk := "/opt/openthread_test/posix"
  const PosixPathSrc := "/opt/"

  /** The POSIX NCP application an RCP is driven through. */
  function RcpApp(tree: HwModule.Tree): string
  {
    match tree
    case Silk => PosixPathSilk + "/ot-ncp"
    case Src => PosixPathSrc + "/openthread/output/posix/x86_64-unknown-linux-gnu/bin/ot-ncp"
  }

  /** The command `__start_wpantund` builds, and whether it logged the mode as unsupported. */
  datatype Started = Started(command: string, critical: bool)

  /** The options for the thread mode (compared upper-cased). */
  function ModeOptions(tree: HwModule.Tree, mode: string, devicePath: string, netns: string): string
  {
    if Upper(mode) == "NCP" then " -o Config:NCP:SocketPath " + devicePath + " "
    else if Upper(mode) == "RCP" then
      " -o Config:NCP:SocketPath \"" + "system:" + RcpApp(tree) + " " + devicePath + " 115200" + "\"" +
      " -o Config:TUN:InterfaceName " + netns + " " + " -o Config:NCP:DriverName spinel "
    else ""
  }

  function StartWpantund(tree: HwModule.Tree, wpantund: string, mode: string, devicePath: string, netns: string,
                         verbose: bool): Started
  {
    var command := wpantund + ModeOptions(tree, mode, devicePath, netns) +
      (if verbose then "-o SyslogMask all " else "") + "-I " + netns;
    Started(command, Upper(mode) != "NCP" && Upper(mode) != "RCP")
  }

  /**
   * In NCP mode wpantund receives its path, the socket path option with the
   * device, the syslog mask when verbose, and the namespace's interface last.
   */
  lemma StartNcpArgv(tree: HwModule.Tree, wpantund: string, mode: string, devicePath: string, netns: string, verbose: bool)
    requires Upper(mode) == "NCP"
    requires Token(wpantund) && Token(devicePath) && Token(netns)
    ensures var s := StartWpantund(tree, wpantund, mode, devicePath, netns, verbose);
      !s.critical &&
      Argv(s.command) == [wpantund, "-o", "Config:NCP:SocketPath", devicePath] +
        (if verbose then ["-o", "SyslogMask", "all"] else []) + ["-I", netns]
  {
    NcpCommand(tree, wpantund, mode, devicePath, netns, verbose);
    NcpWords(wpantund, devicePath, netns, verbose);
  }

  /** The NCP command is the NCP words joined by single spaces. */
  lemma NcpCommand(tree: HwModule.Tree, wpantund: string, mode: string, devicePath: string, netns: string, verbose: bool)
    requires Upper(mode) == "NCP"
    ensures var s := StartWpantund(tree, wpantund, mode, devicePath, netns, verbose);
      !s.critical &&
      s.command == Join(" ", [wpantund, "-o", "Config:NCP:SocketPath", devicePath]) + " " +
        Join(" ", (if verbose then ["-o", "SyslogMask", "all"] else []) + ["-I", netns])
  {
    assert "NCP"[0] != "RCP"[0];
    var opts := " -o Config:NCP:SocketPath ";
    assert ModeOptions(tree, mode, devicePath, netns) == opts + devicePath + " ";
    NcpHead(wpantund, devicePath);
    NcpTail(netns, verbose);
    Regroup(wpantund, opts, devicePath, if verbose then "-o SyslogMask all " else "", netns);
  }

  /** The NCP command regrouped around the space between the device and the rest. */
  lemma Regroup(w: string, o: string, d: string, m: string, n: string)
    ensures w + (o + d + " ") + m + "-I " + n == (w + o + d) + " " + (m + "-I " + n)
  {
  }

  lemma NcpWords(wpantund: string, devicePath: string, netns: string, verbose: bool)
    requires Token(wpantund) && Token(devicePath) && Token(netns)
    ensures var head := [wpantund, "-o", "Config:NCP:SocketPath", devicePath];
      var tail := (if verbose then ["-o", "SyslogMask", "all"] else []) + ["-I", netns];
      Argv(Join(" ", head) + " " + Join(" ", tail)) == head + tail
  {
    var head := [wpantund, "-o", "Config:NCP:SocketPath", devicePath];
    var tail := (if verbose then ["-o", "SyslogMask", "all"] else []) + ["-I", netns];
    JoinAppend(" ", head, tail);
    var ws := head + tail;
    assert forall k :: 0 <= k < |ws| ==> Token(ws[k]) by {
      assert Token("-o") && Token("Config:NCP:SocketPath") && Token("-I");
      assert Token("SyslogMask") && Token("all");
      forall k | 0 <= k < |ws| ensures Token(ws[k]) {
        if k >= 4 {
          assert ws[k] == tail[k - 4];
        }
      }
    }
    ArgvJoin(ws);
  }

  lemma NcpHead(wpantund: string, devicePath: string)
    ensures Join(" ", [wpantund, "-o", "Config:NCP:SocketPath", devicePath]) ==
      wpantund + " -o Config:NCP:SocketPath " + devicePath
  {
    var opt := "Config:NCP:SocketPath";
    JoinCons(" ", wpantund, ["-o", opt, devicePath]);
    assert [wpantund, "-o", opt, devicePath] == [wpantund] + ["-o", opt, devicePath];
    JoinCons(" ", "-o", [opt, devicePath]);
    assert ["-o", opt, devicePath] == ["-o"] + [opt, devicePath];
    JoinPair(opt, devicePath);
    Glue(wpantund, " ", "-o", " ", opt, " ", devicePath);
    SocketOption();
  }

  lemma SocketOption()
    ensures " " + "-o" + " " + "Config:NCP:SocketPath" + " " == " -o Config:NCP:SocketPath "
  {
  }

  /** Concatenation regrouped to the right. */
  lemma Glue(a: string, b: string, c: string, d: string, e: string, f: string, g: string)
    ensures a + b + (c + d + (e + f + g)) == a + (b + c + d + e + f) + g
  {
  }

  lemma NcpTail(netns: string, verbose: bool)
    ensures Join(" ", (if verbose then ["-o", "SyslogMask", "all"] else []) + ["-I", netns]) ==
      (if verbose then "-o SyslogMask all " else "") + "-I " + netns
  {
    JoinPair("-I", netns);
    if verbose {
      var tail := ["-o", "SyslogMask", "all"] + ["-I", netns];
      assert tail == ["-o"] + (["SyslogMask"] + (["all"] + ["-I", netns]));
      JoinCons(" ", "all", ["-I", netns]);
      JoinCons(" ", "SyslogMask", ["all"] + ["-I", netns]);
      JoinCons(" ", "-o", ["SyslogMask"] + (["all"] + ["-I", netns]));
    } else {
      assert [] + ["-I", netns] == ["-I", netns];
    }
  }

  /** Whatever the mode, the command starts with wpantund's path and ends by naming the interface. */
  lemma StartEndsWithInterface(tree: HwModule.Tree, wpantund: string, mode: string, devicePath: string, netns: string,
                               verbose: bool)
    ensures var c := StartWpantund(tree, wpantund, mode, devicePath, netns, verbose).command;
      StartsWith(c, wpantund) && |c| >= 3 + |netns| && c[|c| - |netns| - 3..] == "-I " + netns
  {
    CommandShape(wpantund, ModeOptions(tree, mode, devicePath, netns), if verbose then "-o SyslogMask all " else "", netns);
  }

  /** `wpantund + opts + mask + "-I " + netns` starts with `wpantund` and ends with `-I netns`. */
  lemma CommandShape(wpantund: string, opts: string, mask: string, netns: string)
    ensures var c := wpantund + opts + mask + "-I " + netns;
      StartsWith(c, wpantund) && |c| >= 3 + |netns| && c[|c| - |netns| - 3..] == "-I " + netns
  {
    var c := wpantund + opts + mask + "-I " + netns;
    assert c == (wpantund + opts + mask) + ("-I " + netns);
    assert c[..|wpantund|] == wpantund;
  }

  /**
   * An unsupported mode is only logged: the command goes on without a
   * space after wpantund's path, which the shell then reads as one word
   * with the `-I` glued to it.
   */
  lemma StartUnsupportedGlues(tree: HwModule.Tree, wpantund: string, mode: string, devicePath: string, netns: string)
    requires Upper(mode) != "NCP" && Upper(mode) != "RCP"
    requires Token(wpantund) && Token(netns)
    ensures var s := StartWpantund(tree, wpantund, mode, devicePath, netns, false);
      s.critical && Argv(s.command) == [wpantund + "-I", netns]
  {
    var s := StartWpantund(tree, wpantund, mode, devicePath, netns, false);
    assert ModeOptions(tree, mode, devicePath, netns) == "";
    assert s.command == wpantund + "-I " + netns;
    GluedArgv(wpantund, netns);
  }

  lemma GluedArgv(wpantund: string, netns: string)
    requires Token(wpantund) && Token(netns)
    ensures Argv(wpantund + "-I " + netns) == [wpantund + "-I", netns]
  {
    JoinPair(wpantund + "-I", netns);
    assert wpantund + "-I " + netns == (wpantund + "-I") + " " + netns;
    TokenGlue(wpantund, "-I");
    ArgvJoin([wpantund + "-I", netns]);
  }

  lemma TokenGlue(a: string, b: string)
    requires Token(a) && Token(b)
    ensures Token(a + b)
  {
    var c := a + b;
    forall i | 0 <= i < |c| ensures c[i] != ' ' {
      if i >= |a| {
        assert c[i] == b[i - |a|];
      }
    }
  }

  /** The two copies build the same command except for the RCP application's path. */
  lemma StartTreesAgree(wpantund: string, mode: string, devicePath: string, netns: string, verbose: bool)
    ensures Upper(mode) != "RCP" ==>
      StartWpantund(HwModule.Silk, wpantund, mode, devicePath, netns, verbose) ==
      StartWpantund(HwModule.Src, wpantund, mode, devicePath, netns, verbose)
    ensures RcpApp(HwModule.Silk) != RcpApp(HwModule.Src)
  {
    assert |RcpApp(HwModule.Silk)| != |RcpApp(HwModule.Src)|;
  }
}
