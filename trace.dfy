/**
 * The intermediate crash model shared by both copies of the parser
 * (parser.go and panicparse/parser.go declare the same records), and the
 * pieces of the state machine that the two copies share word for word:
 * splitting the failure text when a signal line arrives, reading the
 * signal's `key=value` extras, turning a frame match into a frame, and
 * attaching a source location to it.
 *
 * The two copies differ only in the type of a goroutine id (`string` in
 * parser.go, `int` in panicparse/parser.go), so the records take it as a
 * type parameter.
 */
module Trace {
  import opened Common
  import opened GoStrings
  import GoStrconv
  import opened Grammar

  /** The parser's five states. */
  datatype State = Init | InPanic | InSignal | StackFunc | StackFile

  /** The failure: Go's `Panic` record (its `Type` field is `typeName` here). */
  datatype Panic<Id> = Panic(
    typeName: string,
    description: string,
    synthetic: bool,
    signal: string,
    signalInfo: string,
    code: string,
    address: string,
    pc: string,
    threadId: Id)

  /** One call-stack entry. */
  datatype Frame = Frame(
    rawFunc: string,
    package: string,
    receiver: string,
    pointer: bool,
    func: string,
    file: string,
    line: int,
    arguments: seq<string>,
    stackOffset: int)

  /** One goroutine and its frames, innermost first as the dump lists them. */
  datatype Goroutine<Id> = Goroutine(id: Id, state: string, frames: seq<Frame>, framesElided: bool)

  /** The parser's local state: `state`, `panic` and `threads`. */
  datatype Machine<Id> = Machine(state: State, panic: Panic<Id>, threads: seq<Goroutine<Id>>)

  /** The failure as the parser starts it: type "crash", every other field empty. */
  function InitialPanic<Id>(noId: Id): Panic<Id> {
    Panic("crash", "", false, "", "", "", "", "", noId)
  }

  function Last<T>(s: seq<T>): T
    requires |s| > 0
  {
    s[|s| - 1]
  }

  /**
   * The facts the two copies' `goroutine` and `frame` pointers rely on: in
   * StackFunc there is a current goroutine, in StackFile it has a current
   * frame; and a signal name is recorded exactly when the failure is synthetic.
   */
  predicate Shape<Id>(m: Machine<Id>) {
    && (m.state == StackFunc ==> |m.threads| > 0)
    && (m.state == StackFile ==> |m.threads| > 0 && |Last(m.threads).frames| > 0)
    && (m.panic.synthetic <==> m.panic.signal != "")
  }

  // ---------------------------------------------------------------- signal extras

  /** What the loop over the signal's extra tokens accumulates. */
  datatype SignalExtras = SignalExtras(code: string, address: string, pc: string, info: seq<string>)

  /**
   * One token: a `key=value` token sets the field named by its key (the
   * text between the first and second '='), other keys are dropped, and a
   * token without '=' is kept for the description.
   */
  function TakeExtra(e: SignalExtras, token: string): SignalExtras {
    if Contains(token, "=") then
      var parts := Split(token, "=");
      if parts[0] == "code" then e.(code := parts[1])
      else if parts[0] == "addr" then e.(address := parts[1])
      else if parts[0] == "pc" then e.(pc := parts[1])
      else e
    else e.(info := e.info + [token])
  }

  /** The tokens taken in order. */
  function FoldExtras(e: SignalExtras, tokens: seq<string>): SignalExtras {
    if tokens == [] then e else TakeExtra(FoldExtras(e, tokens[..|tokens| - 1]), tokens[|tokens| - 1])
  }

  /** Folding one more token of a prefix is one more `TakeExtra`. */
  lemma FoldExtrasStep(e: SignalExtras, tokens: seq<string>, i: nat)
    requires i < |tokens|
    ensures FoldExtras(e, tokens[..i + 1]) == TakeExtra(FoldExtras(e, tokens[..i]), tokens[i])
  {
    assert tokens[..i + 1][..i] == tokens[..i];
  }

  /** The value of the last `key=value` token with this key, or `default` if there is none. */
  function LastValue(tokens: seq<string>, key: string, default: string): string {
    if tokens == [] then default
    else
      var t := tokens[|tokens| - 1];
      if Contains(t, "=") && Before(t, "=") == key then Before(After(t, "="), "=")
      else LastValue(tokens[..|tokens| - 1], key, default)
  }

  /** The tokens without '=', in order. */
  function PlainTokens(tokens: seq<string>): (r: seq<string>)
    ensures forall k :: 0 <= k < |r| ==> !Contains(r[k], "=")
  {
    if tokens == [] then []
    else
      var t := tokens[|tokens| - 1];
      PlainTokens(tokens[..|tokens| - 1]) + (if Contains(t, "=") then [] else [t])
  }

  /**
   * Reading the tokens sets each of code, address and pc to the value of
   * the LAST token with that key (leaving it as it was if there is none) and
   * collects exactly the tokens without '=', in order.
   */
  lemma {:induction false} FoldExtrasMeaning(e: SignalExtras, tokens: seq<string>)
    ensures FoldExtras(e, tokens) == SignalExtras(
      LastValue(tokens, "code", e.code),
      LastValue(tokens, "addr", e.address),
      LastValue(tokens, "pc", e.pc),
      e.info + PlainTokens(tokens))
  {
    if tokens != [] {
      FoldExtrasMeaning(e, tokens[..|tokens| - 1]);
    }
  }

  /** The body of that loop: one token, a `key=value` setting or a word of the signal information. */
  method TakeToken(e: SignalExtras, info: string) returns (e': SignalExtras)
    ensures e' == TakeExtra(e, info)
  {
    e' := e;
    if Contains(info, "=") {
      var parts := Split(info, "=");
      if parts[0] == "code" {
        e' := e'.(code := parts[1]);
      } else if parts[0] == "addr" {
        e' := e'.(address := parts[1]);
      } else if parts[0] == "pc" {
        e' := e'.(pc := parts[1]);
      }
    } else {
      e' := e'.(info := e'.info + [info]);
    }
  }

  /** The Go loop over `strings.Split(extra, " ")`. */
  method ScanSignalExtras(extra: string, code: string, address: string, pc: string) returns (e: SignalExtras)
    ensures e == FoldExtras(SignalExtras(code, address, pc, []), Split(extra, " "))
  {
    var extraInfo := Split(extra, " ");
    e := SignalExtras(code, address, pc, []);
    var i := 0;
    while i < |extraInfo|
      invariant 0 <= i <= |extraInfo|
      invariant e == FoldExtras(SignalExtras(code, address, pc, []), extraInfo[..i])
    {
      e := TakeToken(e, extraInfo[i]);
      FoldExtrasStep(SignalExtras(code, address, pc, []), extraInfo, i);
      i := i + 1;
    }
    assert extraInfo[..i] == extraInfo;
  }

  /**
   * A signal line after the header: the failure text is split on ": " into
   * type and description, the failure becomes synthetic with the signal's
   * name, and the signal extras are read.
   */
  function ApplySignal<Id>(p: Panic<Id>, sig: SignalMatch): (r: Panic<Id>)
    requires sig.name != ""
    ensures r.typeName == Before(p.typeName, ": ")
    ensures r.description == if Contains(p.typeName, ": ") then Before(After(p.typeName, ": "), ": ") else p.description
    ensures r.synthetic && r.signal == sig.name
    ensures r.code == LastValue(Split(sig.extra, " "), "code", p.code)
    ensures r.address == LastValue(Split(sig.extra, " "), "addr", p.address)
    ensures r.pc == LastValue(Split(sig.extra, " "), "pc", p.pc)
    ensures r.signalInfo == Join(PlainTokens(Split(sig.extra, " ")), " ")
    ensures r.threadId == p.threadId
  {
    var sigInfo := Split(p.typeName, ": ");
    var tokens := Split(sig.extra, " ");
    var e0 := SignalExtras(p.code, p.address, p.pc, []);
    var e := FoldExtras(e0, tokens);
    FoldExtrasMeaning(e0, tokens);
    assert e.info == PlainTokens(tokens);
    p.(typeName := sigInfo[0],
       description := if |sigInfo| > 1 then sigInfo[1] else p.description,
       synthetic := true,
       code := e.code, address := e.address, pc := e.pc,
       signal := sig.name,
       signalInfo := Join(e.info, " "))
  }

  // ---------------------------------------------------------------- frames

  /** A new frame from a frame match; `Arguments` splits the function name (group 5) on ", ". */
  function NewFrame(m: FrameMatch): (f: Frame)
    ensures f.rawFunc == m.raw && f.package == m.pkg && f.receiver == m.receiver
    ensures f.pointer == m.pointer && f.func == m.func
    ensures f.file == "" && f.line == 0 && f.stackOffset == 0
    ensures f.arguments == Split(m.func, ", ") && Join(f.arguments, ", ") == m.func
  {
    JoinSplit(m.func, ", ");
    Frame(m.raw, m.pkg, m.receiver, m.pointer, m.func, "", 0, Split(m.func, ", "), 0)
  }

  /** `strconv.Atoi` of the line digits, 0 when it fails. */
  function LineNumber(digits: string): (n: int)
    ensures GoStrconv.MinInt64 <= n <= GoStrconv.MaxInt64
    ensures digits == "" || digits[0] != '-' ==> n >= 0
    ensures GoStrconv.Atoi(digits).Some? ==> n == GoStrconv.Atoi(digits).value
    ensures GoStrconv.Atoi(digits).None? ==> n == 0
  {
    match GoStrconv.Atoi(digits)
    case None => 0
    case Some(v) => v
  }

  /** `strconv.ParseInt(rest, 0, 64)` of the text after the line number, 0 when it fails. */
  function StackOffset(rest: string): (n: int)
    ensures GoStrconv.MinInt64 <= n <= GoStrconv.MaxInt64
    ensures rest == "" ==> n == 0
    ensures GoStrconv.ParseInt0(rest, 64).Some? ==> n == GoStrconv.ParseInt0(rest, 64).value
    ensures GoStrconv.ParseInt0(rest, 64).None? ==> n == 0
  {
    match GoStrconv.ParseInt0(rest, 64)
    case None => 0
    case Some(v) =>
      assert GoStrconv.Pow2(63) == 0x8000_0000_0000_0000 by { GoStrconv.Pow2Of63(); }
      v
  }

  /** The source location attached to a frame. */
  function Locate(f: Frame, m: FileMatch): Frame {
    f.(file := m.file, line := LineNumber(m.lineDigits), stackOffset := StackOffset(m.rest))
  }

  // ---------------------------------------------------------------- last goroutine

  /** `goroutine.Frames = append(goroutine.Frames, frame)` on the last goroutine. */
  function AppendFrame<Id>(gs: seq<Goroutine<Id>>, f: Frame): (r: seq<Goroutine<Id>>)
    requires |gs| > 0
    ensures |r| == |gs| && r[..|gs| - 1] == gs[..|gs| - 1]
    ensures Last(r) == Last(gs).(frames := Last(gs).frames + [f])
  {
    gs[|gs| - 1 := Last(gs).(frames := Last(gs).frames + [f])]
  }

  /** `goroutine.FramesElided = true` on the last goroutine. */
  function MarkElided<Id>(gs: seq<Goroutine<Id>>): (r: seq<Goroutine<Id>>)
    requires |gs| > 0
    ensures |r| == |gs| && r[..|gs| - 1] == gs[..|gs| - 1]
    ensures Last(r) == Last(gs).(framesElided := true)
  {
    gs[|gs| - 1 := Last(gs).(framesElided := true)]
  }

  /** The file line's fields written through `frame`, the last frame of the last goroutine. */
  function LocateLast<Id>(gs: seq<Goroutine<Id>>, m: FileMatch): (r: seq<Goroutine<Id>>)
    requires |gs| > 0 && |Last(gs).frames| > 0
    ensures |r| == |gs| && r[..|gs| - 1] == gs[..|gs| - 1]
    ensures var g := Last(gs); var n := |g.frames|;
      Last(r) == g.(frames := g.frames[n - 1 := Locate(g.frames[n - 1], m)])
  {
    var g := Last(gs);
    var n := |g.frames|;
    gs[|gs| - 1 := g.(frames := g.frames[n - 1 := Locate(g.frames[n - 1], m)])]
  }

  /**
   * `hs` is `gs` after one line: at most one goroutine added, no id
   * changed, and of the goroutines already there only the last one changed.
   */
  predicate Extends<Id(==)>(gs: seq<Goroutine<Id>>, hs: seq<Goroutine<Id>>) {
    && |gs| <= |hs| <= |gs| + 1
    && (forall k :: 0 <= k < |gs| ==> hs[k].id == gs[k].id)
    && (forall k :: 0 <= k < |gs| - 1 ==> hs[k] == gs[k])
  }

  /** Rewriting the last goroutine without touching its id extends the goroutines. */
  lemma LastUpdateExtends<Id>(gs: seq<Goroutine<Id>>, hs: seq<Goroutine<Id>>)
    requires |gs| == |hs| > 0 && hs[..|gs| - 1] == gs[..|gs| - 1] && Last(hs).id == Last(gs).id
    ensures Extends(gs, hs)
  {
    forall k | 0 <= k < |gs| - 1 ensures hs[k] == gs[k] {
      assert hs[k] == hs[..|gs| - 1][k];
    }
  }
}
