/**
 * The `MarshalJSON` methods of panicparse/parser.go (Event, Panic,
 * Goroutine, Frame), as the JSON value each one builds. `omitempty` fields
 * are absent from the object exactly when their Go value is empty; a nil
 * pointer marked `omitempty` likewise. The Go toolchain's GOROOT
 * (`build.Default.GOROOT`) is a parameter.
 */
module LegacyJson {
  import opened Common
  import opened GoStrings
  import GoStrconv
  import opened Trace
  import opened LegacyParser
  import opened JsonTree

  /**
   * The legacy in-app test: not in GOROOT and not a vendored or
   * third-party package (the module cache is not excluded here).
   */
  predicate LegacyInApp(f: Frame, goroot: string) {
    !(HasPrefix(f.file, goroot) || Contains(f.package, "vendor") || Contains(f.package, "third_party"))
  }

  /** An object field tagged `omitempty`: written only when its Go value is not empty. */
  function OmitEmpty(fields: map<string, Json>, key: string, nonEmpty: bool, v: Json): map<string, Json> {
    if nonEmpty then fields[key := v] else fields
  }

  /** `Frame.MarshalJSON`. */
  function FrameJson(f: Frame, goroot: string): (j: Json)
    ensures j.JObject? && j.fields.Keys == {"module", "function", "filename", "lineno", "raw_function", "in_app"}
    ensures j.fields["function"] == JString(if f.receiver != "" then f.receiver + "." + f.func else f.func)
    ensures j.fields["in_app"] == JBool(LegacyInApp(f, goroot))
  {
    var fun := if f.receiver != "" then f.receiver + "." + f.func else f.func;
    JObject(map[
      "module" := JString(f.package),
      "function" := JString(fun),
      "filename" := JString(f.file),
      "lineno" := JInt(f.line),
      "raw_function" := JString(f.rawFunc),
      "in_app" := JBool(LegacyInApp(f, goroot))])
  }

  /**
   * `Goroutine.MarshalJSON`: id, state and the frames under
   * "stacktrace"; a goroutine that never got a frame still has a nil slice,
   * written as null.
   */
  function GoroutineJson(g: Goroutine<int>, goroot: string): (j: Json)
    ensures j.JObject? && j.fields.Keys == {"id", "state", "stacktrace"}
    ensures j.fields["id"] == JInt(g.id) && j.fields["state"] == JString(g.state)
    ensures j.fields["stacktrace"].JObject? && j.fields["stacktrace"].fields.Keys == {"frames"}
    ensures var frames := j.fields["stacktrace"].fields["frames"];
      (g.frames == [] <==> frames == JNull) &&
      (g.frames != [] ==> frames.JArray? && |frames.items| == |g.frames|) &&
      (g.frames != [] ==> forall k :: 0 <= k < |g.frames| ==> frames.items[k] == FrameJson(g.frames[k], goroot))
  {
    var frames := if g.frames == [] then JNull
      else JArray(seq(|g.frames|, k requires 0 <= k < |g.frames| => FrameJson(g.frames[k], goroot)));
    JObject(map["id" := JInt(g.id), "state" := JString(g.state), "stacktrace" := JObject(map["frames" := frames])])
  }

  /** `strconv.ParseInt(code, 0, 32)`, 0 when it fails. */
  function SignalCode(code: string): (n: int)
    ensures -0x8000_0000 <= n < 0x8000_0000
    ensures GoStrconv.ParseInt0(code, 32).Some? ==> n == GoStrconv.ParseInt0(code, 32).value
    ensures GoStrconv.ParseInt0(code, 32).None? ==> n == 0
  {
    GoStrconv.Pow2Of31();
    match GoStrconv.ParseInt0(code, 32)
    case None => 0
    case Some(v) => v
  }

  /** The mechanism object of `Panic.MarshalJSON`. */
  function MechanismJson(p: Panic<int>): (j: Json)
    ensures j.JObject? && "type" in j.fields
    ensures p.signal == "" ==> j == JObject(map["type" := JString("panic")])
    ensures p.signal != "" ==> j.fields["type"] == JString("signal")
    ensures "description" in j.fields <==> p.signal != "" && p.signalInfo != ""
    ensures "description" in j.fields ==> j.fields["description"] == JString(p.signalInfo)
    ensures "meta" in j.fields <==> p.signal != ""
    ensures "meta" in j.fields ==>
      var meta := j.fields["meta"];
      && meta.JObject? && meta.fields.Keys == {"signal"}
      && var sig := meta.fields["signal"];
      && sig.JObject? && "name" in sig.fields && sig.fields["name"] == JString(p.signal)
      && ("code" in sig.fields <==> SignalCode(p.code) != 0)
      && sig.fields.Keys <= {"name", "code"}
      && ("code" in sig.fields ==> sig.fields["code"] == JInt(SignalCode(p.code)))
    ensures "data" in j.fields <==> p.signal != "" && (p.address != "" || p.pc != "")
    ensures "data" in j.fields ==>
      var data := j.fields["data"];
      && data.JObject?
      && ("relevant_address" in data.fields <==> p.address != "")
      && ("program_counter" in data.fields <==> p.pc != "")
      && data.fields.Keys <= {"relevant_address", "program_counter"}
    ensures j.fields.Keys <= {"type", "description", "meta", "data"}
  {
    if p.signal == "" then JObject(map["type" := JString("panic")])
    else
      var code := SignalCode(p.code);
      var sig := OmitEmpty(map["name" := JString(p.signal)], "code", code != 0, JInt(code));
      var data := OmitEmpty(OmitEmpty(map[], "relevant_address", p.address != "", JString(p.address)),
                            "program_counter", p.pc != "", JString(p.pc));
      var m0 := map["type" := JString("signal"), "meta" := JObject(map["signal" := JObject(sig)])];
      var m1 := OmitEmpty(m0, "description", p.signalInfo != "", JString(p.signalInfo));
      JObject(OmitEmpty(m1, "data", |data| > 0, JObject(data)))
  }

  /** `Panic.MarshalJSON`. */
  function PanicJson(p: Panic<int>): (j: Json)
    ensures j.JObject? && {"type", "value", "mechanism"} <= j.fields.Keys
    ensures j.fields.Keys <= {"type", "value", "synthetic", "mechanism", "thread_id"}
    ensures j.fields["type"] == JString(p.typeName) && j.fields["value"] == JString(p.description)
    ensures "synthetic" in j.fields <==> p.synthetic
    ensures "synthetic" in j.fields ==> j.fields["synthetic"] == JBool(true)
    ensures "thread_id" in j.fields <==> p.threadId != 0
    ensures "thread_id" in j.fields ==> j.fields["thread_id"] == JInt(p.threadId)
    ensures j.fields["mechanism"] == MechanismJson(p)
  {
    var f0 := map["type" := JString(p.typeName), "value" := JString(p.description), "mechanism" := MechanismJson(p)];
    var f1 := OmitEmpty(f0, "synthetic", p.synthetic, JBool(true));
    JObject(OmitEmpty(f1, "thread_id", p.threadId != 0, JInt(p.threadId)))
  }

  /** The UUID text with every '-' removed (`strings.Replace(uuid, "-", "", -1)`). */
  function EventId(uuid: string): (id: string)
    ensures '-' !in id
    ensures forall c :: c != '-' ==> multiset(id)[c] == multiset(uuid)[c]
  {
    Remove(uuid, '-')
  }

  /** The characters other than '-' keep their order: removal works piece by piece, one character at a time. */
  lemma EventIdInOrder(a: string, b: string, x: char)
    ensures EventId(a + b) == EventId(a) + EventId(b)
    ensures EventId([x]) == if x == '-' then "" else [x]
  {
    RemoveConcat(a, b, '-');
    RemoveChar(x, '-');
  }

  function ThreadsJson(threads: seq<Goroutine<int>>, goroot: string): (j: Json)
    ensures j.JArray? && |j.items| == |threads|
    ensures forall k :: 0 <= k < |threads| ==> j.items[k] == GoroutineJson(threads[k], goroot)
  {
    JArray(seq(|threads|, k requires 0 <= k < |threads| => GoroutineJson(threads[k], goroot)))
  }

  /** A `map[string]string` as a JSON object of strings. */
  function TagsJson(tags: map<string, string>): Json {
    JObject(map k | k in tags :: JString(tags[k]))
  }

  /**
   * The object `Event.MarshalJSON` encodes, given the encodings of its
   * nested values: five fixed fields, then the `omitempty` ones, each
   * present exactly when its value is not empty.
   */
  function EventObject(id: string, panic: Json, threads: Json, e: Event): (j: Json)
    ensures j.JObject? && {"event_id", "exception", "threads", "platform", "level"} <= j.fields.Keys
    ensures j.fields.Keys <= {"event_id", "exception", "threads", "platform", "level", "server_name", "release", "tags", "environment", "extra"}
    ensures j.fields["event_id"] == JString(id) && j.fields["exception"] == JArray([panic]) && j.fields["threads"] == threads
    ensures j.fields["platform"] == JString("go") && j.fields["level"] == JString(e.level)
  {
    var f0 := map[
      "event_id" := JString(id),
      "exception" := JArray([panic]),
      "threads" := threads,
      "platform" := JString("go"),
      "level" := JString(e.level)];
    var f1 := OmitEmpty(f0, "server_name", e.serverName != "", JString(e.serverName));
    var f2 := OmitEmpty(f1, "release", e.release != "", JString(e.release));
    var f3 := OmitEmpty(f2, "tags", |e.tags| > 0, TagsJson(e.tags));
    var f4 := OmitEmpty(f3, "environment", e.environment != "", JString(e.environment));
    JObject(OmitEmpty(f4, "extra", |e.extra| > 0, JObject(e.extra)))
  }

  /** Each `omitempty` field of the event object is present exactly when its value is not empty, and then holds that value. */
  lemma EventOptionalFields(id: string, panic: Json, threads: Json, e: Event)
    ensures var fs := EventObject(id, panic, threads, e).fields;
      && ("server_name" in fs <==> e.serverName != "")
      && ("release" in fs <==> e.release != "")
      && ("tags" in fs <==> |e.tags| > 0)
      && ("environment" in fs <==> e.environment != "")
      && ("extra" in fs <==> |e.extra| > 0)
      && ("server_name" in fs ==> fs["server_name"] == JString(e.serverName))
      && ("release" in fs ==> fs["release"] == JString(e.release))
      && ("tags" in fs ==> fs["tags"] == TagsJson(e.tags))
      && ("environment" in fs ==> fs["environment"] == JString(e.environment))
      && ("extra" in fs ==> fs["extra"] == JObject(e.extra))
  {
    var fs := EventObject(id, panic, threads, e).fields;
    assert "server_name" in fs <==> e.serverName != "";
    assert "release" in fs <==> e.release != "";
    assert "tags" in fs <==> |e.tags| > 0;
    assert "environment" in fs <==> e.environment != "";
  }

  /** `Event.MarshalJSON`: the event id is the UUID text without its hyphens. */
  function EventJson(e: Event, goroot: string): Json {
    EventObject(EventId(e.id), PanicJson(e.panic), ThreadsJson(e.threads, goroot), e)
  }

  // ---------------------------------------------------------------- properties

  /**
   * The signal code Go prints for the usual SIGSEGV dump, "0xffffffff",
   * is out of range for a signed 32-bit integer, so the encoded signal
   * carries no code.
   */
  lemma SignalCodeFfffffffOmitted(p: Panic<int>)
    requires p.signal != "" && p.code == "0xffffffff"
    ensures "code" !in MechanismJson(p).fields["meta"].fields["signal"].fields
  {
    GoStrconv.SignalCodeOutOfRange();
  }

  /** A failure that was never refined by a signal line is encoded without "synthetic" and with the bare panic mechanism. */
  lemma PlainPanicJson(p: Panic<int>)
    requires p.signal == "" && !p.synthetic
    ensures PanicJson(p).fields.Keys == {"type", "value", "mechanism"} + (if p.threadId != 0 then {"thread_id"} else {})
    ensures PanicJson(p).fields["mechanism"] == JObject(map["type" := JString("panic")])
  {
  }

  /** The event `Parse` builds has no server name, release, tags, environment or extras, so only the five fixed keys appear. */
  lemma ParsedEventKeys(e: Event, goroot: string)
    requires e.serverName == "" && e.release == "" && e.environment == "" && e.tags == map[] && e.extra == map[]
    ensures EventJson(e, goroot).fields.Keys == {"event_id", "exception", "threads", "platform", "level"}
  {
  }
}
