/**
 * panicparse/parser.go's `Parse`: the same five-state machine as parser.go,
 * with three differences. Goroutine ids are integers (`strconv.Atoi`, 0 when
 * it fails) and the failure's thread id is the first NON-ZERO id; frames are
 * read with the stricter legacy frame expression; and once all lines are
 * read, each goroutine's frames are reversed in place so that they run
 * outermost first. The result is the legacy event record that
 * `LegacyJson` encodes.
 *
 * The event id (`uuid.New()`) is random: it is a parameter, in its textual
 * form.
 */
module LegacyParser {
  import opened Common
  import opened GoStrings
  import GoStrconv
  import opened Grammar
  import opened Trace
  import opened JsonTree

  /** The event record of panicparse/parser.go; `extra` holds JSON values. */
  datatype Event = Event(
    id: string,
    panic: Panic<int>,
    threads: seq<Goroutine<int>>,
    level: string,
    serverName: string,
    release: string,
    tags: map<string, string>,
    environment: string,
    extra: map<string, Json>)

  const Start: Machine<int> := Machine(Init, InitialPanic(0), [])

  /** `strconv.Atoi` of the id digits, 0 when it fails: the conversion `LineNumber` makes. */
  function GoroutineId(digits: string): (id: int)
    ensures GoStrconv.MinInt64 <= id <= GoStrconv.MaxInt64
    ensures digits == "" || digits[0] != '-' ==> id >= 0
    ensures GoStrconv.Atoi(digits).Some? ==> id == GoStrconv.Atoi(digits).value
    ensures GoStrconv.Atoi(digits).None? ==> id == 0
  {
    LineNumber(digits)
  }

  /** The first non-zero goroutine id, or 0 when there is none. */
  function FirstNonZeroId(gs: seq<Goroutine<int>>): (id: int)
    ensures id == 0 || exists k | 0 <= k < |gs| :: gs[k].id == id
  {
    if gs == [] then 0 else if gs[0].id != 0 then gs[0].id else FirstNonZeroId(gs[1..])
  }

  /** A goroutine appended later changes the first non-zero id only while there is none. */
  lemma {:induction false} FirstNonZeroIdPush(gs: seq<Goroutine<int>>, g: Goroutine<int>)
    ensures FirstNonZeroId(gs + [g]) == if FirstNonZeroId(gs) == 0 then g.id else FirstNonZeroId(gs)
  {
    if gs != [] {
      assert (gs + [g])[1..] == gs[1..] + [g];
      FirstNonZeroIdPush(gs[1..], g);
    }
  }

  /** A goroutine's frames rewritten in place leave the first non-zero id as it is. */
  lemma {:induction false} FirstNonZeroIdSameIds(gs: seq<Goroutine<int>>, hs: seq<Goroutine<int>>)
    requires |gs| == |hs| && forall k :: 0 <= k < |gs| ==> gs[k].id == hs[k].id
    ensures FirstNonZeroId(gs) == FirstNonZeroId(hs)
  {
    if gs != [] {
      FirstNonZeroIdSameIds(gs[1..], hs[1..]);
    }
  }

  /** What every frame the legacy parser builds satisfies. */
  predicate FrameOk(f: Frame) {
    f.func != "" && f.package != "" && f.rawFunc != "" && Join(f.arguments, ", ") == f.func && f.line >= 0
  }

  /**
   * The invariant of the machine: the pointer facts of `Shape`; nothing is
   * recorded before the panic header; goroutines are only opened after it;
   * the thread id is the first non-zero goroutine id; a synthetic failure's
   * type holds no ": "; every frame is well formed.
   */
  predicate Inv(m: Machine<int>) {
    && Shape(m)
    && (m.state == Init ==> m == Start)
    && (m.state == Init || m.state == InPanic ==> m.threads == [])
    && (forall k :: 0 <= k < |m.threads| ==> m.threads[k].id >= 0)
    && m.panic.threadId == FirstNonZeroId(m.threads)
    && (m.panic.synthetic ==> !Contains(m.panic.typeName, ": "))
    && (forall k, j :: 0 <= k < |m.threads| && 0 <= j < |m.threads[k].frames| ==> FrameOk(m.threads[k].frames[j]))
  }

  function InitStep(m: Machine<int>, line: Line): (r: Machine<int>)
    requires Inv(m) && m.state == Init
    ensures Inv(r)
  {
    match MatchPanic(line)
    case None => m
    case Some(t) => m.(state := InPanic, panic := m.panic.(typeName := t))
  }

  function PanicStep(m: Machine<int>, line: Line): (r: Machine<int>)
    requires Inv(m) && m.state == InPanic
    ensures Inv(r)
  {
    match MatchSignal(line)
    case None => m.(state := InSignal)
    case Some(sig) =>
      var p := ApplySignal(m.panic, sig);
      SplitPiecesFree(m.panic.typeName, ": ", 0);
      m.(panic := p)
  }

  /** InSignal: a goroutine header opens a goroutine; its id becomes the thread id while that is 0. */
  function HeaderStep(m: Machine<int>, line: Line): (r: Machine<int>)
    requires Inv(m) && m.state == InSignal
    ensures Inv(r)
  {
    match MatchGoroutine(line)
    case None => m
    case Some(g) =>
      var id := GoroutineId(g.id);
      var goroutine := Goroutine(id, g.state, [], false);
      OpenGoroutineKeepsInv(m, goroutine);
      Machine(
        StackFunc,
        if m.panic.threadId == 0 then m.panic.(threadId := id) else m.panic,
        m.threads + [goroutine])
  }

  lemma OpenGoroutineKeepsInv(m: Machine<int>, goroutine: Goroutine<int>)
    requires Inv(m) && m.state == InSignal && goroutine.id >= 0 && goroutine.frames == []
    ensures Inv(Machine(
      StackFunc,
      if m.panic.threadId == 0 then m.panic.(threadId := goroutine.id) else m.panic,
      m.threads + [goroutine]))
  {
    var gs := m.threads + [goroutine];
    FirstNonZeroIdPush(m.threads, goroutine);
    assert forall k :: 0 <= k < |m.threads| ==> gs[k] == m.threads[k];
    assert gs[|m.threads|] == goroutine;
  }

  function FuncStep(m: Machine<int>, line: Line): (r: Machine<int>)
    requires Inv(m) && m.state == StackFunc
    ensures Inv(r)
  {
    match MatchLegacyFrame(line)
    case Some(fm) =>
      var f := NewFrame(fm);
      AppendFrameKeepsInv(m, f);
      m.(state := StackFile, threads := AppendFrame(m.threads, f))
    case None =>
      if IsElision(line) then
        MarkElidedKeepsInv(m);
        m.(threads := MarkElided(m.threads))
      else HeaderStep(m.(state := InSignal), line)
  }

  function FileStep(m: Machine<int>, line: Line): (r: Machine<int>)
    requires Inv(m) && m.state == StackFile
    ensures Inv(r)
  {
    match MatchFile(line)
    case None => m.(state := InSignal)
    case Some(fm) =>
      LocateLastKeepsInv(m, fm);
      m.(state := StackFunc, threads := LocateLast(m.threads, fm))
  }

  lemma AppendFrameKeepsInv(m: Machine<int>, f: Frame)
    requires Inv(m) && m.state == StackFunc && FrameOk(f)
    ensures Inv(m.(state := StackFile, threads := AppendFrame(m.threads, f)))
  {
    var r := m.(state := StackFile, threads := AppendFrame(m.threads, f));
    var n := |m.threads|;
    assert forall k :: 0 <= k < n - 1 ==> r.threads[k] == m.threads[k] by {
      assert r.threads[..n - 1] == m.threads[..n - 1];
    }
    FirstNonZeroIdSameIds(m.threads, r.threads);
  }

  lemma MarkElidedKeepsInv(m: Machine<int>)
    requires Inv(m) && m.state == StackFunc
    ensures Inv(m.(threads := MarkElided(m.threads)))
  {
    var r := m.(threads := MarkElided(m.threads));
    var n := |m.threads|;
    assert forall k :: 0 <= k < n - 1 ==> r.threads[k] == m.threads[k] by {
      assert r.threads[..n - 1] == m.threads[..n - 1];
    }
    FirstNonZeroIdSameIds(m.threads, r.threads);
  }

  lemma LocateLastKeepsInv(m: Machine<int>, fm: FileMatch)
    requires Inv(m) && m.state == StackFile
    requires fm.lineDigits != "" && forall k :: 0 <= k < |fm.lineDigits| ==> IsDigit(fm.lineDigits[k])
    ensures Inv(m.(state := StackFunc, threads := LocateLast(m.threads, fm)))
  {
    var r := m.(state := StackFunc, threads := LocateLast(m.threads, fm));
    var n := |m.threads|;
    assert forall k :: 0 <= k < n - 1 ==> r.threads[k] == m.threads[k] by {
      assert r.threads[..n - 1] == m.threads[..n - 1];
    }
    FirstNonZeroIdSameIds(m.threads, r.threads);
    assert fm.lineDigits[0] != '-' by { assert IsDigit(fm.lineDigits[0]); }
  }

  function Step(m: Machine<int>, line: Line): (r: Machine<int>)
    requires Inv(m)
    ensures Inv(r)
  {
    match m.state
    case Init => InitStep(m, line)
    case InPanic => PanicStep(m, line)
    case InSignal => HeaderStep(m, line)
    case StackFunc => FuncStep(m, line)
    case StackFile => FileStep(m, line)
  }

  /** The machine after the given lines, before the frames are reversed. */
  function Run(lines: seq<Line>): (m: Machine<int>)
    ensures Inv(m)
  {
    if lines == [] then Start else Step(Run(lines[..|lines| - 1]), lines[|lines| - 1])
  }

  /** Running one more line of a prefix is one more step. */
  lemma RunPrefix(lines: seq<Line>, i: nat)
    requires i < |lines|
    ensures Run(lines[..i + 1]) == Step(Run(lines[..i]), lines[i])
  {
    assert lines[..i + 1][..i] == lines[..i];
  }

  /** A goroutine with its frames outermost first. */
  function Outermost(g: Goroutine<int>): Goroutine<int> {
    g.(frames := Reverse(g.frames))
  }

  // ---------------------------------------------------------------- properties of the machine

  /** Until a `panic: ` line arrives every line is skipped. */
  lemma {:induction false} NoPanicLineKeepsStart(lines: seq<Line>)
    requires forall k :: 0 <= k < |lines| ==> !HasPrefix(lines[k], "panic: ")
    ensures Run(lines) == Start
  {
    if lines != [] {
      NoPanicLineKeepsStart(lines[..|lines| - 1]);
    }
  }

  /** Reversing the frames keeps every goroutine's id, state, elision mark and multiset of frames. */
  lemma OutermostKeepsGoroutine(g: Goroutine<int>)
    ensures Outermost(g).id == g.id && Outermost(g).state == g.state && Outermost(g).framesElided == g.framesElided
    ensures multiset(Outermost(g).frames) == multiset(g.frames)
    ensures |g.frames| > 0 ==> Outermost(g).frames[0] == Last(g.frames)
  {
    ReversePermutes(g.frames);
  }

  // ---------------------------------------------------------------- the transitions, state by state

  /** Init: a `panic: ` header records its text as the type and moves to InPanic; any other line changes nothing. */
  lemma InitTransition(m: Machine<int>, line: Line)
    requires Inv(m) && m.state == Init
    ensures HasPrefix(line, "panic: ") ==> Step(m, line) == Machine(InPanic, InitialPanic(0).(typeName := line[7..]), [])
    ensures !HasPrefix(line, "panic: ") ==> Step(m, line) == Start
  {
  }

  /** InPanic: a signal line refines the failure and the state stays; any other line moves to InSignal and is consumed. */
  lemma PanicTransition(m: Machine<int>, line: Line)
    requires Inv(m) && m.state == InPanic
    ensures MatchSignal(line).Some? ==>
      Step(m, line) == Machine(InPanic, ApplySignal(m.panic, MatchSignal(line).value), [])
    ensures MatchSignal(line).None? ==> Step(m, line) == Machine(InSignal, m.panic, [])
  {
  }

  /** A run of id digits reads as its decimal value, or 0 when that overflows a 64-bit `int`. */
  lemma GoroutineIdDigits(ds: string)
    requires ds != [] && forall k :: 0 <= k < |ds| ==> GoStrconv.IsDigit(ds[k])
    ensures GoroutineId(ds) == if GoStrconv.DecimalValue(ds) <= GoStrconv.MaxInt64 then GoStrconv.DecimalValue(ds) else 0
  {
    GoStrconv.AtoiDigits(ds);
  }

  /**
   * InSignal: a goroutine header appends exactly one goroutine, with the
   * parsed id and no frames, and moves to StackFunc; the thread id is set
   * by this goroutine only while it is still 0. Any other line changes
   * nothing.
   */
  lemma HeaderTransition(m: Machine<int>, line: Line)
    requires Inv(m) && m.state == InSignal
    ensures MatchGoroutine(line).None? ==> Step(m, line) == m
    ensures MatchGoroutine(line).Some? ==>
      var g := MatchGoroutine(line).value;
      var id := GoroutineId(g.id);
      var r := Step(m, line);
      && r.state == StackFunc
      && r.threads == m.threads + [Goroutine(id, g.state, [], false)]
      && r.panic == m.panic.(threadId := if m.panic.threadId == 0 then id else m.panic.threadId)
  {
  }

  /**
   * StackFunc: a frame descriptor appends one frame to the last goroutine
   * and moves to StackFile; otherwise the elision marker marks the last
   * goroutine, and any other line is handled as in InSignal without reading
   * another line.
   */
  lemma FuncTransition(m: Machine<int>, line: Line)
    requires Inv(m) && m.state == StackFunc
    ensures MatchLegacyFrame(line).Some? ==>
      var r := Step(m, line);
      var g := Last(m.threads);
      && r.state == StackFile && r.panic == m.panic
      && r.threads == m.threads[..|m.threads| - 1] + [g.(frames := g.frames + [NewFrame(MatchLegacyFrame(line).value)])]
    ensures MatchLegacyFrame(line).None? && IsElision(line) ==>
      var r := Step(m, line);
      var g := Last(m.threads);
      && r.state == StackFunc && r.panic == m.panic
      && r.threads == m.threads[..|m.threads| - 1] + [g.(framesElided := true)]
    ensures MatchLegacyFrame(line).None? && !IsElision(line) ==> Step(m, line) == Step(m.(state := InSignal), line)
  {
    var n := |m.threads|;
    assert m.threads == m.threads[..n - 1] + [m.threads[n - 1]];
  }

  /**
   * The elision marker matches the legacy frame expression too (package
   * `...additional frames elided.`, function `.`), so in StackFunc it is
   * taken as one more frame and the goroutine is not marked as elided.
   */
  lemma ElisionMarkerTakenAsFrame(m: Machine<int>, line: Line)
    requires Inv(m) && m.state == StackFunc && line == ElisionMarker
    ensures var r := Step(m, line);
      && r.state == StackFile
      && r.threads == AppendFrame(m.threads, NewFrame(FrameMatch(line, line[..28], false, "", ".")))
      && |Last(r.threads).frames| == |Last(m.threads).frames| + 1
      && Last(r.threads).framesElided == Last(m.threads).framesElided
  {
    LegacyElisionMatch(line);
    var fm := MatchLegacyFrame(line).value;
    assert Step(m, line) == m.(state := StackFile, threads := AppendFrame(m.threads, NewFrame(fm)));
  }

  /**
   * StackFile: a file line sets the file, line number and stack offset of
   * the last frame of the last goroutine and moves back to StackFunc; a
   * number that does not parse is 0. Any other line moves to InSignal and
   * is consumed.
   */
  lemma FileTransition(m: Machine<int>, line: Line)
    requires Inv(m) && m.state == StackFile
    ensures MatchFile(line).None? ==> Step(m, line) == m.(state := InSignal)
    ensures MatchFile(line).Some? ==>
      var fm := MatchFile(line).value;
      var r := Step(m, line);
      var g := Last(m.threads);
      var n := |g.frames|;
      && r.state == StackFunc && r.panic == m.panic
      && r.threads == m.threads[..|m.threads| - 1] +
           [g.(frames := g.frames[n - 1 := g.frames[n - 1].(file := fm.file, line := LineNumber(fm.lineDigits), stackOffset := StackOffset(fm.rest))])]
  {
    var k := |m.threads|;
    assert m.threads == m.threads[..k - 1] + [m.threads[k - 1]];
  }

  // ---------------------------------------------------------------- the Go code

  /**
   * panicparse/parser.go's `Parse` over the scanner's lines: the machine is
   * run over every line, each goroutine's frames are reversed in place, and
   * the event is assembled with empty tags and extras.
   */
  method Parse(lines: seq<Line>, uuid: string) returns (ev: Event)
    ensures var m := Run(lines);
      && ev.id == uuid && ev.panic == m.panic && ev.level == "fatal"
      && |ev.threads| == |m.threads|
      && (forall i :: 0 <= i < |m.threads| ==> ev.threads[i] == Outermost(m.threads[i]))
      && ev.serverName == "" && ev.release == "" && ev.environment == ""
      && ev.tags == map[] && ev.extra == map[]
  {
    var state := Init;
    var panic := InitialPanic(0);
    var threads: seq<Goroutine<int>> := [];
    var i := 0;
    while i < |lines|
      invariant 0 <= i <= |lines|
      invariant Machine(state, panic, threads) == Run(lines[..i])
    {
      state, panic, threads := ParseLine(state, panic, threads, lines[i]);
      RunPrefix(lines, i);
      i := i + 1;
    }
    assert lines[..i] == lines;
    threads := ReverseFrames(threads);
    ev := Event(uuid, panic, threads, "fatal", "", "", map[], "", map[]);
  }

  /** The loop after the scan: every goroutine's frames reversed in place, outermost first. */
  method ReverseFrames(parsed: seq<Goroutine<int>>) returns (threads: seq<Goroutine<int>>)
    ensures |threads| == |parsed|
    ensures forall k :: 0 <= k < |parsed| ==> threads[k] == Outermost(parsed[k])
  {
    threads := parsed;
    for t := 0 to |threads|
      invariant |threads| == |parsed|
      invariant forall k :: 0 <= k < t ==> threads[k] == Outermost(parsed[k])
      invariant forall k :: t <= k < |threads| ==> threads[k] == parsed[k]
    {
      var goroutine := threads[t];
      var frames := new Frame[|goroutine.frames|](k requires 0 <= k < |goroutine.frames| => goroutine.frames[k]);
      assert frames[..] == goroutine.frames;
      ReverseInPlace(frames);
      threads := threads[t := goroutine.(frames := frames[..])];
    }
  }

  /** The body of the scanner loop: the switch on the state. */
  method ParseLine(state: State, panic: Panic<int>, threads: seq<Goroutine<int>>, line: Line)
    returns (state': State, panic': Panic<int>, threads': seq<Goroutine<int>>)
    requires Inv(Machine(state, panic, threads))
    ensures Machine(state', panic', threads') == Step(Machine(state, panic, threads), line)
  {
    match state
    case Init => state', panic', threads' := InitCase(panic, threads, line);
    case InPanic => state', panic', threads' := PanicCase(panic, threads, line);
    case InSignal => state', panic', threads' := HeaderCase(panic, threads, line);
    case StackFunc => state', panic', threads' := FuncCase(panic, threads, line);
    case StackFile => state', panic', threads' := FileCase(panic, threads, line);
  }

  method InitCase(panic: Panic<int>, threads: seq<Goroutine<int>>, line: Line)
    returns (state': State, panic': Panic<int>, threads': seq<Goroutine<int>>)
    requires Inv(Machine(Init, panic, threads))
    ensures Machine(state', panic', threads') == InitStep(Machine(Init, panic, threads), line)
  {
    state', panic', threads' := Init, panic, threads;
    var matches := MatchPanic(line);
    if matches.Some? {
      panic' := panic.(typeName := matches.value);
      state' := InPanic;
    }
  }

  method PanicCase(panic: Panic<int>, threads: seq<Goroutine<int>>, line: Line)
    returns (state': State, panic': Panic<int>, threads': seq<Goroutine<int>>)
    requires Inv(Machine(InPanic, panic, threads))
    ensures Machine(state', panic', threads') == PanicStep(Machine(InPanic, panic, threads), line)
  {
    state', panic', threads' := InPanic, panic, threads;
    var matches := MatchSignal(line);
    if matches.None? {
      state' := InSignal;
      return;
    }
    var sigInfo := Split(panic.typeName, ": ");
    var description := if |sigInfo| > 1 then sigInfo[1] else panic.description;
    var extras := ScanSignalExtras(matches.value.extra, panic.code, panic.address, panic.pc);
    panic' := panic.(typeName := sigInfo[0], description := description, synthetic := true,
                     code := extras.code, address := extras.address, pc := extras.pc,
                     signal := matches.value.name, signalInfo := Join(extras.info, " "));
  }

  method HeaderCase(panic: Panic<int>, threads: seq<Goroutine<int>>, line: Line)
    returns (state': State, panic': Panic<int>, threads': seq<Goroutine<int>>)
    requires Inv(Machine(InSignal, panic, threads))
    ensures Machine(state', panic', threads') == HeaderStep(Machine(InSignal, panic, threads), line)
  {
    state', panic', threads' := InSignal, panic, threads;
    var matches := MatchGoroutine(line);
    if matches.None? {
      return;
    }
    var id := 0;
    var parsed := GoStrconv.Atoi(matches.value.id);
    if parsed.Some? {
      id := parsed.value;
    }
    if panic.threadId == 0 {
      panic' := panic.(threadId := id);
    }
    threads' := threads + [Goroutine(id, matches.value.state, [], false)];
    state' := StackFunc;
  }

  /** The StackFunc case; `goto restartSwitch` is the call of the InSignal case. */
  method FuncCase(panic: Panic<int>, threads: seq<Goroutine<int>>, line: Line)
    returns (state': State, panic': Panic<int>, threads': seq<Goroutine<int>>)
    requires Inv(Machine(StackFunc, panic, threads))
    ensures Machine(state', panic', threads') == FuncStep(Machine(StackFunc, panic, threads), line)
  {
    state', panic', threads' := StackFunc, panic, threads;
    var matches := MatchLegacyFrame(line);
    var goroutine := threads[|threads| - 1];
    if matches.None? {
      if IsElision(line) {
        threads' := threads[|threads| - 1 := goroutine.(framesElided := true)];
        return;
      }
      state', panic', threads' := HeaderCase(panic, threads, line);
      return;
    }
    var fm := matches.value;
    var frame := Frame(fm.raw, fm.pkg, fm.receiver, fm.pointer, fm.func, "", 0, Split(fm.func, ", "), 0);
    threads' := threads[|threads| - 1 := goroutine.(frames := goroutine.frames + [frame])];
    state' := StackFile;
  }

  method FileCase(panic: Panic<int>, threads: seq<Goroutine<int>>, line: Line)
    returns (state': State, panic': Panic<int>, threads': seq<Goroutine<int>>)
    requires |threads| > 0 && |Last(threads).frames| > 0
    ensures MatchFile(line).None? ==> state' == InSignal && panic' == panic && threads' == threads
    ensures MatchFile(line).Some? ==> state' == StackFunc && panic' == panic && threads' == LocateLast(threads, MatchFile(line).value)
  {
    state', panic', threads' := StackFile, panic, threads;
    var matches := MatchFile(line);
    if matches.None? {
      state' := InSignal;
      return;
    }
    var lineNo := LineNumber(matches.value.lineDigits);
    var offset := StackOffset(matches.value.rest);
    var goroutine := threads[|threads| - 1];
    var n := |goroutine.frames|;
    var frame := goroutine.frames[n - 1].(file := matches.value.file, line := lineNo, stackOffset := offset);
    threads' := threads[|threads| - 1 := goroutine.(frames := goroutine.frames[n - 1 := frame])];
    assert threads' == LocateLast(threads, matches.value);
    state' := StackFunc;
  }
}
