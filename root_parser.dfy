/**
 * parser.go's `Parse`: a five-state machine run over the lines of a crash
 * dump, building the failure and its goroutines, then handing them to the
 * normaliser.
 *
 * `Step` is the machine's transition on one line and `Run` the machine
 * after a sequence of lines; the method `Parse` is the Go loop itself and is
 * proved to compute `Run`. The Go pointers `goroutine` and `frame` always
 * designate the last goroutine and its last frame; `Inv` records what that
 * needs, so the "frame is nil" branch of the StackFile case cannot be taken.
 */
module RootParser {
  import opened Common
  import opened GoStrings
  import opened Grammar
  import opened Trace
  import opened RootNormalise

  /** The machine before the first line. */
  const Start: Machine<string> := Machine(Init, InitialPanic(""), [])

  /** What every frame the parser builds satisfies. */
  predicate FrameOk(f: Frame) {
    f.func != "" && f.rawFunc != "" && Join(f.arguments, ", ") == f.func && f.line >= 0
  }

  /**
   * The invariant of the machine: the pointer facts of `Shape`; nothing is
   * recorded before the panic header; goroutines are only opened after it;
   * the failure's thread id is the id of the first goroutine or empty when
   * there is none; a synthetic failure's type holds no ": " any more.
   */
  predicate Inv(m: Machine<string>) {
    && Shape(m)
    && (m.state == Init ==> m == Start)
    && (m.state == Init || m.state == InPanic ==> m.threads == [])
    && (forall k :: 0 <= k < |m.threads| ==> m.threads[k].id != "")
    && m.panic.threadId == (if m.threads == [] then "" else m.threads[0].id)
    && (m.panic.synthetic ==> !Contains(m.panic.typeName, ": "))
    && (forall k, j :: 0 <= k < |m.threads| && 0 <= j < |m.threads[k].frames| ==> FrameOk(m.threads[k].frames[j]))
  }

  /** Init: wait for `panic: `, whose text becomes the failure's type. */
  function InitStep(m: Machine<string>, line: Line): (r: Machine<string>)
    requires Inv(m) && m.state == Init
    ensures Inv(r)
  {
    match MatchPanic(line)
    case None => m
    case Some(t) => m.(state := InPanic, panic := m.panic.(typeName := t))
  }

  /** InPanic: a signal line refines the failure and the state stays; any other line moves on. */
  function PanicStep(m: Machine<string>, line: Line): (r: Machine<string>)
    requires Inv(m) && m.state == InPanic
    ensures Inv(r)
  {
    match MatchSignal(line)
    case None => m.(state := InSignal)
    case Some(sig) =>
      var p := ApplySignal(m.panic, sig);
      BeforeHasNoSeparator(m.panic.typeName, ": ");
      m.(panic := p)
  }

  /** InSignal: a goroutine header opens a goroutine; its id becomes the thread id if none is set. */
  function HeaderStep(m: Machine<string>, line: Line): (r: Machine<string>)
    requires Inv(m) && m.state == InSignal
    ensures Inv(r)
  {
    match MatchGoroutine(line)
    case None => m
    case Some(g) =>
      OpenGoroutineKeepsInv(m, g);
      Machine(
        StackFunc,
        if m.panic.threadId == "" then m.panic.(threadId := g.id) else m.panic,
        m.threads + [Goroutine(g.id, g.state, [], false)])
  }

  lemma OpenGoroutineKeepsInv(m: Machine<string>, g: GoroutineMatch)
    requires Inv(m) && m.state == InSignal && g.id != ""
    ensures Inv(Machine(
      StackFunc,
      if m.panic.threadId == "" then m.panic.(threadId := g.id) else m.panic,
      m.threads + [Goroutine(g.id, g.state, [], false)]))
  {
    var gs := m.threads + [Goroutine(g.id, g.state, [], false)];
    assert forall k :: 0 <= k < |m.threads| ==> gs[k] == m.threads[k];
    assert gs[|m.threads|] == Goroutine(g.id, g.state, [], false);
  }

  /**
   * StackFunc: a frame descriptor appends a frame; otherwise the elision
   * marker marks the goroutine, and any other line is handled again as in
   * InSignal (Go's `goto restartSwitch`).
   */
  function FuncStep(m: Machine<string>, line: Line): (r: Machine<string>)
    requires Inv(m) && m.state == StackFunc
    ensures Inv(r)
  {
    match MatchRootFrame(line)
    case Some(fm) =>
      var f := NewFrame(fm);
      AppendFrameKeepsInv(m, f);
      m.(state := StackFile, threads := AppendFrame(m.threads, f))
    case None =>
      if IsElision(line) then
        MarkElidedKeepsInv(m);
        m.(threads := MarkElided(m.threads))
      else HeaderStep(m.(state := InSignal), line)
  }

  lemma AppendFrameKeepsInv(m: Machine<string>, f: Frame)
    requires Inv(m) && m.state == StackFunc && FrameOk(f)
    ensures Inv(m.(state := StackFile, threads := AppendFrame(m.threads, f)))
  {
    var r := m.(state := StackFile, threads := AppendFrame(m.threads, f));
    var n := |m.threads|;
    assert forall k :: 0 <= k < n - 1 ==> r.threads[k] == m.threads[k] by {
      assert r.threads[..n - 1] == m.threads[..n - 1];
    }
  }

  lemma MarkElidedKeepsInv(m: Machine<string>)
    requires Inv(m) && m.state == StackFunc
    ensures Inv(m.(threads := MarkElided(m.threads)))
  {
    var r := m.(threads := MarkElided(m.threads));
    var n := |m.threads|;
    assert forall k :: 0 <= k < n - 1 ==> r.threads[k] == m.threads[k] by {
      assert r.threads[..n - 1] == m.threads[..n - 1];
    }
  }

  /** StackFile: a file line locates the current frame; any other line moves to InSignal. */
  function FileStep(m: Machine<string>, line: Line): (r: Machine<string>)
    requires Inv(m) && m.state == StackFile
    ensures Inv(r)
  {
    match MatchFile(line)
    case None => m.(state := InSignal)
    case Some(fm) =>
      LocateLastKeepsInv(m, fm);
      m.(state := StackFunc, threads := LocateLast(m.threads, fm))
  }

  lemma LocateLastKeepsInv(m: Machine<string>, fm: FileMatch)
    requires Inv(m) && m.state == StackFile
    requires fm.lineDigits != "" && forall k :: 0 <= k < |fm.lineDigits| ==> IsDigit(fm.lineDigits[k])
    ensures Inv(m.(state := StackFunc, threads := LocateLast(m.threads, fm)))
  {
    var r := m.(state := StackFunc, threads := LocateLast(m.threads, fm));
    var n := |m.threads|;
    assert forall k :: 0 <= k < n - 1 ==> r.threads[k] == m.threads[k] by {
      assert r.threads[..n - 1] == m.threads[..n - 1];
    }
    assert fm.lineDigits[0] != '-' by { assert IsDigit(fm.lineDigits[0]); }
  }

  /** One line. */
  function Step(m: Machine<string>, line: Line): (r: Machine<string>)
    requires Inv(m)
    ensures Inv(r)
  {
    match m.state
    case Init => InitStep(m, line)
    case InPanic => PanicStep(m, line)
    case InSignal => HeaderStep(m, line)
    case StackFunc => FuncStep(m, line)
    case StackFile => FileStep(m, line)
  }

  /** The machine after the given lines. */
  function Run(lines: seq<Line>): (m: Machine<string>)
    ensures Inv(m)
  {
    if lines == [] then Start else Step(Run(lines[..|lines| - 1]), lines[|lines| - 1])
  }

  /** The text before the first separator holds none. */
  lemma BeforeHasNoSeparator(s: string, sep: string)
    requires |sep| > 0
    ensures !Contains(Before(s, sep), sep)
  {
    SplitPiecesFree(s, sep, 0);
  }

  // ---------------------------------------------------------------- properties of the machine

  /** Until a `panic: ` line arrives every line is skipped. */
  lemma {:induction false} NoPanicLineKeepsStart(lines: seq<Line>)
    requires forall k :: 0 <= k < |lines| ==> !HasPrefix(lines[k], "panic: ")
    ensures Run(lines) == Start
  {
    if lines != [] {
      NoPanicLineKeepsStart(lines[..|lines| - 1]);
    }
  }

  /**
   * A dump without a `panic: ` line still yields an event: a "crash" with
   * no value, no thread id, the "panic" mechanism and no threads.
   */
  lemma NoPanicLineEvent(lines: seq<Line>)
    requires forall k :: 0 <= k < |lines| ==> !HasPrefix(lines[k], "panic: ")
    ensures PanicToSentryException(Run(lines).panic) == Exception("crash", "", "", Mechanism("panic", "", map[], None))
    ensures Run(lines).panic.description == "" && Run(lines).threads == []
  {
    NoPanicLineKeepsStart(lines);
  }

  /**
   * A line never removes a goroutine or changes an id; it adds at most
   * one goroutine, and of the goroutines already there it may change only
   * the last one.
   */
  lemma StepKeepsEarlierGoroutines(m: Machine<string>, line: Line)
    requires Inv(m)
    ensures Extends(m.threads, Step(m, line).threads)
  {
    match m.state
    case Init =>
    case InPanic =>
    case InSignal => HeaderStepExtends(m, line);
    case StackFunc =>
      match MatchRootFrame(line) {
        case Some(fm) => LastUpdateExtends(m.threads, AppendFrame(m.threads, NewFrame(fm)));
        case None =>
          if IsElision(line) {
            LastUpdateExtends(m.threads, MarkElided(m.threads));
          } else {
            HeaderStepExtends(m.(state := InSignal), line);
          }
      }
    case StackFile =>
      match MatchFile(line) {
        case Some(fm) => LastUpdateExtends(m.threads, LocateLast(m.threads, fm));
        case None =>
      }
  }

  lemma HeaderStepExtends(m: Machine<string>, line: Line)
    requires Inv(m) && m.state == InSignal
    ensures Extends(m.threads, HeaderStep(m, line).threads)
  {
    match MatchGoroutine(line)
    case None =>
    case Some(g) =>
      assert HeaderStep(m, line).threads == m.threads + [Goroutine(g.id, g.state, [], false)];
  }

  /** Running one more line of a prefix is one more step. */
  lemma RunPrefix(lines: seq<Line>, i: nat)
    requires i < |lines|
    ensures Run(lines[..i + 1]) == Step(Run(lines[..i]), lines[i])
  {
    assert lines[..i + 1][..i] == lines[..i];
  }

  /** Running one more line is one more step. */
  lemma RunSnoc(lines: seq<Line>, line: Line)
    ensures Run(lines + [line]) == Step(Run(lines), line)
  {
    assert (lines + [line])[..|lines|] == lines;
  }

  /** Once a goroutine is followed by another, later lines leave it as it is. */
  lemma {:induction false} RunKeepsEarlierGoroutines(a: seq<Line>, b: seq<Line>)
    ensures var n := |Run(a).threads|;
      && n <= |Run(a + b).threads|
      && (forall k :: 0 <= k < n ==> Run(a + b).threads[k].id == Run(a).threads[k].id)
      && (forall k :: 0 <= k < n - 1 ==> Run(a + b).threads[k] == Run(a).threads[k])
  {
    if b == [] {
      assert a + b == a;
    } else {
      var b', line := b[..|b| - 1], b[|b| - 1];
      AppendSplitsLast(a, b);
      RunKeepsEarlierGoroutines(a, b');
      RunSnoc(a + b', line);
      StepKeepsEarlierGoroutines(Run(a + b'), line);
    }
  }

  /** Once the first goroutine header has been read, the thread id is fixed: later lines never change it. */
  lemma ThreadIdFixed(a: seq<Line>, b: seq<Line>)
    requires Run(a).threads != []
    ensures Run(a + b).panic.threadId == Run(a).panic.threadId == Run(a).threads[0].id
  {
    RunKeepsEarlierGoroutines(a, b);
  }

  /**
   * The elision marker itself matches the frame descriptor expression, so
   * in StackFunc it is taken as one more frame and the goroutine is not
   * marked as elided.
   */
  lemma ElisionMarkerTakenAsFrame(m: Machine<string>, line: Line)
    requires Inv(m) && m.state == StackFunc && line == ElisionMarker
    ensures var r := Step(m, line);
      && r.state == StackFile
      && |Last(r.threads).frames| == |Last(m.threads).frames| + 1
      && Last(r.threads).framesElided == Last(m.threads).framesElided
  {
    assert '(' !in line;
    var fm := MatchRootFrame(line).value;
    assert Step(m, line) == m.(state := StackFile, threads := AppendFrame(m.threads, NewFrame(fm)));
  }

  // ---------------------------------------------------------------- the transitions, state by state

  /** Init: a `panic: ` header records its text as the type and moves to InPanic; any other line changes nothing. */
  lemma InitTransition(m: Machine<string>, line: Line)
    requires Inv(m) && m.state == Init
    ensures HasPrefix(line, "panic: ") ==> Step(m, line) == Machine(InPanic, InitialPanic("").(typeName := line[7..]), [])
    ensures !HasPrefix(line, "panic: ") ==> Step(m, line) == Start
  {
  }

  /**
   * InPanic: a signal line refines the failure and the state stays; any
   * other line moves to InSignal and is consumed there, even a goroutine
   * header.
   */
  lemma PanicTransition(m: Machine<string>, line: Line)
    requires Inv(m) && m.state == InPanic
    ensures MatchSignal(line).Some? ==>
      Step(m, line) == Machine(InPanic, ApplySignal(m.panic, MatchSignal(line).value), [])
    ensures MatchSignal(line).None? ==> Step(m, line) == Machine(InSignal, m.panic, [])
  {
  }

  /**
   * InSignal: a goroutine header appends exactly one goroutine, with no
   * frames, and moves to StackFunc; the thread id is set by the first
   * goroutine only. Any other line changes nothing.
   */
  lemma HeaderTransition(m: Machine<string>, line: Line)
    requires Inv(m) && m.state == InSignal
    ensures MatchGoroutine(line).None? ==> Step(m, line) == m
    ensures MatchGoroutine(line).Some? ==>
      var g := MatchGoroutine(line).value;
      var r := Step(m, line);
      && r.state == StackFunc
      && r.threads == m.threads + [Goroutine(g.id, g.state, [], false)]
      && r.panic == m.panic.(threadId := if m.threads == [] then g.id else m.panic.threadId)
  {
  }

  /**
   * StackFunc: a frame descriptor appends one frame to the last goroutine
   * and moves to StackFile; otherwise the elision marker marks the last
   * goroutine, and any other line is handled as in InSignal without reading
   * another line.
   */
  lemma FuncTransition(m: Machine<string>, line: Line)
    requires Inv(m) && m.state == StackFunc
    ensures MatchRootFrame(line).Some? ==>
      var r := Step(m, line);
      var g := Last(m.threads);
      && r.state == StackFile && r.panic == m.panic
      && r.threads == m.threads[..|m.threads| - 1] + [g.(frames := g.frames + [NewFrame(MatchRootFrame(line).value)])]
    ensures MatchRootFrame(line).None? && IsElision(line) ==>
      var r := Step(m, line);
      var g := Last(m.threads);
      && r.state == StackFunc && r.panic == m.panic
      && r.threads == m.threads[..|m.threads| - 1] + [g.(framesElided := true)]
    ensures MatchRootFrame(line).None? && !IsElision(line) ==> Step(m, line) == Step(m.(state := InSignal), line)
  {
    var n := |m.threads|;
    assert m.threads == m.threads[..n - 1] + [m.threads[n - 1]];
  }

  /**
   * StackFile: a file line sets the file, line number and stack offset of
   * the last frame of the last goroutine and moves back to StackFunc; a
   * number that does not parse is 0. Any other line moves to InSignal and
   * is consumed.
   */
  lemma FileTransition(m: Machine<string>, line: Line)
    requires Inv(m) && m.state == StackFile
    ensures MatchFile(line).None? ==> Step(m, line) == m.(state := InSignal)
    ensures MatchFile(line).Some? ==>
      var fm := MatchFile(line).value;
      var r := Step(m, line);
      var g := Last(m.threads);
      var n := |g.frames|;
      && r.state == StackFunc && r.panic == m.panic
      && r.threads == m.threads[..|m.threads| - 1] +
           [g.(frames := g.frames[n - 1 := g.frames[n - 1].(file := fm.file, line := LineNumber(fm.lineDigits), stackOffset := StackOffset(fm.rest))])]
  {
    var k := |m.threads|;
    assert m.threads == m.threads[..k - 1] + [m.threads[k - 1]];
  }

  /**
   * parser.go's `Parse` over the scanner's lines: the machine is run over
   * every line, then the event is normalised.
   */
  method Parse(lines: seq<Line>, goroot: string) returns (ev: SentryEvent)
    ensures var m := Run(lines);
      && ev.message == m.panic.description
      && ev.level == LevelFatal
      && ev.exception == [PanicToSentryException(m.panic)]
      && |ev.threads| == |m.threads|
      && forall i :: 0 <= i < |m.threads| ==> ev.threads[i] == NormalisedThread(m.threads[i], goroot)
  {
    var state := Init;
    var panic := InitialPanic("");
    var threads: seq<Goroutine<string>> := [];
    var i := 0;
    while i < |lines|
      invariant 0 <= i <= |lines|
      invariant Machine(state, panic, threads) == Run(lines[..i])
    {
      state, panic, threads := ParseLine(state, panic, threads, lines[i]);
      RunPrefix(lines, i);
      i := i + 1;
    }
    assert lines[..i] == lines;
    ev := EventToSentryEvent(Event(panic, threads, "fatal"), goroot);
  }

  /** The body of the scanner loop: the switch on the state. */
  method ParseLine(state: State, panic: Panic<string>, threads: seq<Goroutine<string>>, line: Line)
    returns (state': State, panic': Panic<string>, threads': seq<Goroutine<string>>)
    requires Inv(Machine(state, panic, threads))
    ensures Machine(state', panic', threads') == Step(Machine(state, panic, threads), line)
  {
    match state
    case Init => state', panic', threads' := InitCase(panic, threads, line);
    case InPanic => state', panic', threads' := PanicCase(panic, threads, line);
    case InSignal => state', panic', threads' := HeaderCase(panic, threads, line);
    case StackFunc => state', panic', threads' := FuncCase(panic, threads, line);
    case StackFile => state', panic', threads' := FileCase(panic, threads, line);
  }

  method InitCase(panic: Panic<string>, threads: seq<Goroutine<string>>, line: Line)
    returns (state': State, panic': Panic<string>, threads': seq<Goroutine<string>>)
    requires Inv(Machine(Init, panic, threads))
    ensures Machine(state', panic', threads') == InitStep(Machine(Init, panic, threads), line)
  {
    state', panic', threads' := Init, panic, threads;
    var matches := MatchPanic(line);
    if matches.Some? {
      panic' := panic.(typeName := matches.value);
      state' := InPanic;
    }
  }

  method PanicCase(panic: Panic<string>, threads: seq<Goroutine<string>>, line: Line)
    returns (state': State, panic': Panic<string>, threads': seq<Goroutine<string>>)
    requires Inv(Machine(InPanic, panic, threads))
    ensures Machine(state', panic', threads') == PanicStep(Machine(InPanic, panic, threads), line)
  {
    state', panic', threads' := InPanic, panic, threads;
    var matches := MatchSignal(line);
    if matches.None? {
      state' := InSignal;
      return;
    }
    var sigInfo := Split(panic.typeName, ": ");
    var description := if |sigInfo| > 1 then sigInfo[1] else panic.description;
    var extras := ScanSignalExtras(matches.value.extra, panic.code, panic.address, panic.pc);
    panic' := panic.(typeName := sigInfo[0], description := description, synthetic := true,
                     code := extras.code, address := extras.address, pc := extras.pc,
                     signal := matches.value.name, signalInfo := Join(extras.info, " "));
  }

  method HeaderCase(panic: Panic<string>, threads: seq<Goroutine<string>>, line: Line)
    returns (state': State, panic': Panic<string>, threads': seq<Goroutine<string>>)
    requires Inv(Machine(InSignal, panic, threads))
    ensures Machine(state', panic', threads') == HeaderStep(Machine(InSignal, panic, threads), line)
  {
    state', panic', threads' := InSignal, panic, threads;
    var matches := MatchGoroutine(line);
    if matches.None? {
      return;
    }
    var id := matches.value.id;
    if panic.threadId == "" {
      panic' := panic.(threadId := id);
    }
    threads' := threads + [Goroutine(id, matches.value.state, [], false)];
    state' := StackFunc;
  }

  /** The StackFunc case; `goto restartSwitch` is the call of the InSignal case. */
  method FuncCase(panic: Panic<string>, threads: seq<Goroutine<string>>, line: Line)
    returns (state': State, panic': Panic<string>, threads': seq<Goroutine<string>>)
    requires Inv(Machine(StackFunc, panic, threads))
    ensures Machine(state', panic', threads') == FuncStep(Machine(StackFunc, panic, threads), line)
  {
    state', panic', threads' := StackFunc, panic, threads;
    var matches := MatchRootFrame(line);
    var goroutine := threads[|threads| - 1];
    if matches.None? {
      if IsElision(line) {
        threads' := threads[|threads| - 1 := goroutine.(framesElided := true)];
        return;
      }
      state', panic', threads' := HeaderCase(panic, threads, line);
      return;
    }
    var fm := matches.value;
    var frame := Frame(fm.raw, fm.pkg, fm.receiver, fm.pointer, fm.func, "", 0, Split(fm.func, ", "), 0);
    threads' := threads[|threads| - 1 := goroutine.(frames := goroutine.frames + [frame])];
    state' := StackFile;
  }

  method FileCase(panic: Panic<string>, threads: seq<Goroutine<string>>, line: Line)
    returns (state': State, panic': Panic<string>, threads': seq<Goroutine<string>>)
    requires |threads| > 0 && |Last(threads).frames| > 0
    ensures MatchFile(line).None? ==> state' == InSignal && panic' == panic && threads' == threads
    ensures MatchFile(line).Some? ==> state' == StackFunc && panic' == panic && threads' == LocateLast(threads, MatchFile(line).value)
  {
    state', panic', threads' := StackFile, panic, threads;
    var matches := MatchFile(line);
    if matches.None? {
      state' := InSignal;
      return;
    }
    var lineNo := LineNumber(matches.value.lineDigits);
    var offset := StackOffset(matches.value.rest);
    var goroutine := threads[|threads| - 1];
    var n := |goroutine.frames|;
    var frame := goroutine.frames[n - 1].(file := matches.value.file, line := lineNo, stackOffset := offset);
    threads' := threads[|threads| - 1 := goroutine.(frames := goroutine.frames[n - 1 := frame])];
    assert threads' == LocateLast(threads, matches.value);
    state' := StackFunc;
  }
}
