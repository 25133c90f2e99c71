/**
 * The second half of parser.go: turning the intermediate crash model into
 * the error-tracking service's event (`eventToSentryEvent`,
 * `panicToSentryException`, `goroutinesToSentryThreads`).
 *
 * The Go toolchain's GOROOT (`build.Default.GOROOT`) is a parameter.
 */
module RootNormalise {
  import opened Common
  import opened GoStrings
  import opened Trace

  /** The crash as parser.go's `Parse` hands it over. */
  datatype Event = Event(panic: Panic<string>, threads: seq<Goroutine<string>>, level: string)

  /** The service's exception mechanism; `handled` is a pointer in Go, `None` for nil. */
  datatype Mechanism = Mechanism(kind: string, description: string, data: map<string, string>, handled: Option<bool>)

  datatype Exception = Exception(typeName: string, value: string, threadId: string, mechanism: Mechanism)

  datatype SentryFrame = SentryFrame(package: string, funcLabel: string, filename: string, lineno: int, inApp: bool)

  /** A stack trace, outermost call first. */
  datatype Stacktrace = Stacktrace(frames: seq<SentryFrame>)

  datatype Thread = Thread(id: string, stacktrace: Stacktrace)

  /** The fields of the service's event that the normaliser sets. */
  datatype SentryEvent = SentryEvent(message: string, level: string, exception: seq<Exception>, threads: seq<Thread>)

  const LevelFatal := "fatal"

  /**
   * The exception: type, value and thread id copied, and a mechanism that
   * is "panic" with no data, or "signal" when a signal was recorded.
   */
  function PanicToSentryException(p: Panic<string>): (x: Exception)
    ensures x.typeName == p.typeName && x.value == p.description && x.threadId == p.threadId
    ensures p.signal == "" ==> x.mechanism == Mechanism("panic", "", map[], None)
    ensures p.signal != "" ==>
      && x.mechanism.kind == "signal"
      && x.mechanism.description == p.signalInfo
      && x.mechanism.handled == Some(false)
    ensures "signal" in x.mechanism.data <==> p.signal != ""
    ensures "code" in x.mechanism.data <==> p.signal != ""
    ensures "relevant_address" in x.mechanism.data <==> p.signal != "" && p.address != ""
    ensures "program_counter" in x.mechanism.data <==> p.signal != "" && p.pc != ""
    ensures x.mechanism.data.Keys <= {"signal", "code", "relevant_address", "program_counter"}
    ensures "signal" in x.mechanism.data ==> x.mechanism.data["signal"] == p.signal
    ensures "code" in x.mechanism.data ==> x.mechanism.data["code"] == p.code
    ensures "relevant_address" in x.mechanism.data ==> x.mechanism.data["relevant_address"] == p.address
    ensures "program_counter" in x.mechanism.data ==> x.mechanism.data["program_counter"] == p.pc
  {
    var mechanism :=
      if p.signal == "" then Mechanism("panic", "", map[], None)
      else
        var d0 := map["signal" := p.signal, "code" := p.code];
        var d1 := if p.address != "" then d0["relevant_address" := p.address] else d0;
        var d2 := if p.pc != "" then d1["program_counter" := p.pc] else d1;
        Mechanism("signal", p.signalInfo, d2, Some(false));
    Exception(p.typeName, p.description, p.threadId, mechanism)
  }

  /** A failure the parser marked synthetic carries the "signal" mechanism, any other the "panic" one. */
  lemma MechanismFollowsSynthetic(p: Panic<string>)
    requires p.synthetic <==> p.signal != ""
    ensures PanicToSentryException(p).mechanism.kind == (if p.synthetic then "signal" else "panic")
    ensures PanicToSentryException(p).mechanism.handled == (if p.synthetic then Some(false) else None)
  {
  }

  /** The function label: the receiver, if any, joined to the function name with '.'. */
  function FunctionLabel(f: Frame): string {
    if f.receiver != "" then f.receiver + "." + f.func else f.func
  }

  /** A frame is in-app unless it is in GOROOT, the module cache, or a vendored or third-party package. */
  predicate InApp(f: Frame, goroot: string) {
    !(HasPrefix(f.file, goroot)
      || Contains(f.file, "go/pkg/mod")
      || Contains(f.package, "vendor")
      || Contains(f.package, "third_party"))
  }

  function NormaliseFrame(f: Frame, goroot: string): SentryFrame {
    SentryFrame(f.package, FunctionLabel(f), f.file, f.line, InApp(f, goroot))
  }

  /** The normalised frames of one goroutine, whose frames are innermost first: outermost first. */
  function NormalisedFrames(fs: seq<Frame>, goroot: string): (r: seq<SentryFrame>)
    ensures |r| == |fs|
  {
    seq(|fs|, k requires 0 <= k < |fs| => NormaliseFrame(fs[|fs| - 1 - k], goroot))
  }

  function NormalisedThread(g: Goroutine<string>, goroot: string): Thread {
    Thread(g.id, Stacktrace(NormalisedFrames(g.frames, goroot)))
  }

  /** Normalising the frames reverses their order: it maps each frame of the reversed sequence. */
  lemma NormalisedFramesReversed(fs: seq<Frame>, goroot: string)
    ensures NormalisedFrames(fs, goroot) == seq(|fs|, k requires 0 <= k < |fs| => NormaliseFrame(Reverse(fs)[k], goroot))
  {
    var r := Reverse(fs);
    var l := NormalisedFrames(fs, goroot);
    var m := seq(|fs|, k requires 0 <= k < |fs| => NormaliseFrame(r[k], goroot));
    forall k | 0 <= k < |fs| ensures l[k] == m[k] {
      assert r[k] == fs[|fs| - 1 - k];
    }
    assert l == m;
  }

  /** A call appended below the innermost frame comes out first. */
  lemma {:induction false} NormalisedFramesPush(fs: seq<Frame>, f: Frame, goroot: string)
    ensures NormalisedFrames(fs + [f], goroot) == [NormaliseFrame(f, goroot)] + NormalisedFrames(fs, goroot)
  {
    var l := NormalisedFrames(fs + [f], goroot);
    var r := [NormaliseFrame(f, goroot)] + NormalisedFrames(fs, goroot);
    forall k | 0 <= k < |l| ensures l[k] == r[k] {
      if k > 0 {
        assert (fs + [f])[|fs| - k] == fs[|fs| - 1 - (k - 1)];
      }
    }
  }

  /** Frames in the Go toolchain's own tree are never in-app. */
  lemma GorootFramesNotInApp(f: Frame, goroot: string)
    requires HasPrefix(f.file, goroot)
    ensures !NormaliseFrame(f, goroot).inApp
  {
  }

  /**
   * `goroutinesToSentryThreads`: one thread per goroutine, same order and
   * id, its stack trace filled from the back so that it lists the frames
   * outermost first.
   */
  method GoroutinesToSentryThreads(threads: seq<Goroutine<string>>, goroot: string) returns (r: seq<Thread>)
    ensures |r| == |threads|
    ensures forall i :: 0 <= i < |threads| ==> r[i] == NormalisedThread(threads[i], goroot)
  {
    var sentryThreads := new Thread[|threads|];
    for i := 0 to |threads|
      modifies sentryThreads
      invariant forall k :: 0 <= k < i ==> sentryThreads[k] == NormalisedThread(threads[k], goroot)
    {
      var thread := threads[i];
      var numFrames := |thread.frames|;
      var frames := new SentryFrame[numFrames];
      for j := 0 to numFrames
        modifies frames
        invariant forall k :: numFrames - j <= k < numFrames ==>
          frames[k] == NormaliseFrame(thread.frames[numFrames - 1 - k], goroot)
      {
        var f := thread.frames[j];
        var fun := if f.receiver != "" then f.receiver + "." + f.func else f.func;
        var inApp := !(HasPrefix(f.file, goroot)
          || Contains(f.file, "go/pkg/mod")
          || Contains(f.package, "vendor")
          || Contains(f.package, "third_party"));
        frames[numFrames - j - 1] := SentryFrame(f.package, fun, f.file, f.line, inApp);
      }
      assert frames[..] == NormalisedFrames(thread.frames, goroot);
      sentryThreads[i] := Thread(thread.id, Stacktrace(frames[..]));
    }
    r := sentryThreads[..];
  }

  /** The service's event: the description as message, level fatal, one exception, the threads. */
  method EventToSentryEvent(e: Event, goroot: string) returns (ev: SentryEvent)
    ensures ev.message == e.panic.description && ev.level == LevelFatal
    ensures ev.exception == [PanicToSentryException(e.panic)]
    ensures |ev.threads| == |e.threads|
    ensures forall i :: 0 <= i < |e.threads| ==> ev.threads[i] == NormalisedThread(e.threads[i], goroot)
  {
    var threads := GoroutinesToSentryThreads(e.threads, goroot);
    ev := SentryEvent(e.panic.description, LevelFatal, [PanicToSentryException(e.panic)], threads);
  }
}
