/**
 * The line recognisers of the crash-dump grammar. Each is a hand-written
 * matcher for one anchored regular expression of the parser, returning the
 * capture groups the parser reads, or `None` when the line does not match.
 *
 * Go's `regexp` reports the leftmost-first match: among the ways to match
 * the whole line it picks the one a backtracking matcher finds first, trying
 * greedy repetitions longest-first and optional groups present-first. Each
 * matcher below follows that search order; where a branch of the search can
 * never succeed, the comment says why it is not written out.
 */
module Grammar {
  import opened Common
  import opened GoStrings

  /** One line of the dump as the line scanner yields it: never a newline inside. */
  type Line = s: string | '\n' !in s witness ""

  /** RE2's `\s`. */
  predicate IsSpace(c: char) { c == ' ' || c == '\t' || c == '\n' || c as int == 12 || c == '\r' }

  /** RE2's `\d`. */
  predicate IsDigit(c: char) { '0' <= c <= '9' }

  // The negated character classes of the expressions below.
  predicate NotColon(c: char) { c != ':' }
  predicate NotComma(c: char) { c != ',' }
  predicate NotOpen(c: char) { c != '(' }
  predicate NotClose(c: char) { c != ')' }
  predicate NotDotOrOpen(c: char) { c != '.' && c != '(' }
  predicate NotSlashOrOpen(c: char) { c != '/' && c != '(' }

  // ---------------------------------------------------------------- panic header

  /** `^panic: (.*)$`: the text after the prefix. */
  function MatchPanic(line: Line): (r: Option<string>)
    ensures r.Some? <==> HasPrefix(line, "panic: ")
    ensures r.Some? ==> line == "panic: " + r.value
  {
    if HasPrefix(line, "panic: ") then Some(line[7..]) else None
  }

  // ---------------------------------------------------------------- signal line

  datatype SignalMatch = SignalMatch(name: string, extra: string)

  /**
   * `^\[signal\s([^:]+):\s(.*)\]$`. `[^:]+` is greedy and must be followed
   * by ':', so only its longest run can succeed; `.*` must leave exactly the
   * final `]`.
   */
  function MatchSignal(line: Line): (r: Option<SignalMatch>)
    ensures r.Some? ==> r.value.name != "" && ':' !in r.value.name
    ensures r.Some? ==> 10 + |r.value.name| < |line| && IsSpace(line[7]) && IsSpace(line[9 + |r.value.name|])
    ensures r.Some? ==> line == "[signal" + [line[7]] + r.value.name + ":" + [line[9 + |r.value.name|]] + r.value.extra + "]"
  {
    if !HasPrefix(line, "[signal") || |line| < 8 || !IsSpace(line[7]) then None
    else
      var n := Span(line, 8, NotColon);
      if n == 0 || 8 + n == |line| then None
      else if 10 + n > |line| - 1 || !IsSpace(line[9 + n]) || line[|line| - 1] != ']' then None
      else
        var name := line[8..8 + n];
        var extra := line[10 + n..|line| - 1];
        assert line == line[..7] + [line[7]] + name + [line[8 + n]] + [line[9 + n]] + extra + [line[|line| - 1]];
        Some(SignalMatch(name, extra))
  }

  /** Where the pieces of a signal line built from its parts sit. */
  lemma SignalPieces(line: string, ws1: char, name: string, ws2: char, extra: string)
    requires line == "[signal" + [ws1] + name + ":" + [ws2] + extra + "]"
    ensures |line| == 11 + |name| + |extra| && line[..7] == "[signal" && line[7] == ws1
    ensures line[8..8 + |name|] == name && line[8 + |name|] == ':' && line[9 + |name|] == ws2
    ensures line[10 + |name|..|line| - 1] == extra && line[|line| - 1] == ']'
  {
    var x1 := "[signal" + [ws1];
    var x2 := x1 + name;
    var x3 := x2 + ":";
    var x4 := x3 + [ws2];
    var x5 := x4 + extra;
    assert line == x5 + "]";
    assert line[..|x5|] == x5 && x5[..|x4|] == x4 && x5[|x4|..] == extra;
    assert x4[..|x3|] == x3 && x3[..|x2|] == x2 && x2[..|x1|] == x1 && x2[|x1|..] == name;
    assert x1[..7] == "[signal";
  }

  /**
   * A signal line `[signal`, a space, a name without ':', ':', a space, any
   * text and `]` gives that name and that text.
   */
  lemma MatchSignalComplete(line: Line, ws1: char, name: string, ws2: char, extra: string)
    requires line == "[signal" + [ws1] + name + ":" + [ws2] + extra + "]"
    requires IsSpace(ws1) && IsSpace(ws2) && name != "" && ':' !in name
    ensures MatchSignal(line) == Some(SignalMatch(name, extra))
  {
    SignalPieces(line, ws1, name, ws2, extra);
    assert forall k :: 8 <= k < 8 + |name| ==> line[k] == name[k - 8];
    SpanExact(line, 8, NotColon, |name|);
  }

  // ---------------------------------------------------------------- goroutine header

  datatype GoroutineMatch = GoroutineMatch(id: string, state: string)

  /**
   * What may follow the state: `(?:, (\d+) minutes)?(, locked to thread)?\]:$`.
   * The digits of the minutes clause are followed by a space, so they are the
   * whole digit run after `, `.
   */
  predicate HeaderTail(t: string) {
    || t == "]:"
    || t == ", locked to thread]:"
    || (HasPrefix(t, ", ") && Span(t, 2, IsDigit) > 0
        && (t[2 + Span(t, 2, IsDigit)..] == " minutes]:" || t[2 + Span(t, 2, IsDigit)..] == " minutes, locked to thread]:"))
  }

  /** A tail is `]:` or opens with the ',' of one of its clauses. */
  lemma HeaderTailStart(t: string)
    requires HeaderTail(t)
    ensures t == "]:" || (t != "" && t[0] == ',')
  {
    assert HasPrefix(t, ", ") ==> t[0] == ',';
  }

  /** Neither what is left after a state that swallowed `]` nor the empty remainder is a tail. */
  lemma NotHeaderTail()
    ensures !HeaderTail(":") && !HeaderTail("")
  {
    assert forall k | 0 <= k <= 1 :: !HasPrefix(":"[..k], ", ");
  }

  /**
   * The longest state `line[q..q+n]` (n between 1 and `k`) whose remainder
   * `accept`s: `[^,]+` backs off one character at a time.
   */
  function StateSearch(line: string, q: nat, k: nat, accept: string -> bool): (r: Option<nat>)
    requires q + k <= |line|
    ensures r.Some? ==> 1 <= r.value <= k
    decreases k
  {
    if k == 0 then None
    else if accept(line[q + k..]) then Some(k)
    else StateSearch(line, q, k - 1, accept)
  }

  /**
   * The state `StateSearch` finds is `accept`ed and no longer one is; when it
   * finds none, none is.
   */
  lemma {:induction false} StateSearchMax(line: string, q: nat, k: nat, accept: string -> bool)
    requires q + k <= |line|
    ensures StateSearch(line, q, k, accept).Some? ==> accept(line[q + StateSearch(line, q, k, accept).value..])
    ensures StateSearch(line, q, k, accept).Some? ==>
      forall j :: q + StateSearch(line, q, k, accept).value < j <= q + k ==> !accept(line[j..])
    ensures StateSearch(line, q, k, accept).None? ==> forall j :: q < j <= q + k ==> !accept(line[j..])
    decreases k
  {
    if k > 0 && !accept(line[q + k..]) {
      StateSearchMax(line, q, k - 1, accept);
    }
  }

  /**
   * `^goroutine (\d+) \[([^,]+)(?:, (\d+) minutes)?(, locked to thread)?\]:$`:
   * the id digits and the state. The id is the whole digit run, the state
   * the longest run of non-commas after ` [` that leaves a tail.
   */
  function MatchGoroutine(line: Line): (r: Option<GoroutineMatch>)
    ensures r.Some? ==> r.value.id != "" && forall k :: 0 <= k < |r.value.id| ==> IsDigit(r.value.id[k])
    ensures r.Some? ==> r.value.state != "" && ',' !in r.value.state
  {
    if !HasPrefix(line, "goroutine ") then None
    else
      var d := Span(line, 10, IsDigit);
      if d == 0 || !HasPrefix(line[10 + d..], " [") then None
      else MatchState(line, d)
  }

  /** The state and tail of a goroutine header whose `d` id digits have matched. */
  function MatchState(line: string, d: nat): (r: Option<GoroutineMatch>)
    requires HasPrefix(line, "goroutine ") && 12 + d <= |line| && line[10 + d..12 + d] == " ["
    requires forall j :: 10 <= j < 10 + d ==> IsDigit(line[j])
    ensures r.Some? ==> r.value.id == line[10..10 + d]
    ensures r.Some? ==> r.value.state != "" && ',' !in r.value.state
    ensures r.Some? ==> forall k :: 0 <= k < |r.value.id| ==> IsDigit(r.value.id[k])
  {
    var q := 12 + d;
    var run := Span(line, q, NotComma);
    match StateSearch(line, q, run, HeaderTail)
    case None => None
    case Some(k) =>
      var id := line[10..10 + d];
      var state := line[q..q + k];
      GoroutineParts(line, d, k, id, state);
      Some(GoroutineMatch(id, state))
  }

  lemma GoroutineParts(line: string, d: nat, k: nat, id: string, state: string)
    requires HasPrefix(line, "goroutine ") && 12 + d + k <= |line| && line[10 + d..12 + d] == " ["
    requires forall j :: 10 <= j < 10 + d ==> IsDigit(line[j])
    requires forall j :: 12 + d <= j < 12 + d + k ==> NotComma(line[j])
    requires id == line[10..10 + d] && state == line[12 + d..12 + d + k]
    ensures forall j :: 0 <= j < |id| ==> IsDigit(id[j])
    ensures ',' !in state
  {
    assert forall j :: 0 <= j < |id| ==> id[j] == line[10 + j];
    assert forall j :: 0 <= j < |state| ==> state[j] == line[12 + d + j];
  }

  lemma GoroutineText(line: string, d: nat, id: string, state: string)
    requires HasPrefix(line, "goroutine ") && 12 + d + |state| <= |line| && line[10 + d..12 + d] == " ["
    requires id == line[10..10 + d] && state == line[12 + d..12 + d + |state|]
    ensures HasPrefix(line, "goroutine " + id + " [" + state)
  {
    assert line[..12 + d + |state|] == line[..10] + id + line[10 + d..12 + d] + state;
  }

  /**
   * A state of `n` characters from `q` leaves a header tail, and no longer
   * one, up to `run` characters, does: the choice `[^,]+` makes when it backs off.
   */
  predicate LongestState(line: string, q: nat, run: nat, n: nat) {
    && q + run <= |line| && 1 <= n <= run && HeaderTail(line[q + n..])
    && forall j :: q + n < j <= q + run ==> !HeaderTail(line[j..])
  }

  /** The state `StateSearch` finds with `HeaderTail` is the longest that leaves a tail. */
  lemma HeaderSearch(line: string, q: nat, k: nat, n: nat)
    requires q + k <= |line| && StateSearch(line, q, k, HeaderTail) == Some(n)
    ensures LongestState(line, q, k, n)
  {
    var accept: string -> bool := HeaderTail;
    StateSearchMax(line, q, k, accept);
    assert accept(line[q + n..]);
    forall j | q + n < j <= q + k ensures !HeaderTail(line[j..]) {
      assert !accept(line[j..]);
    }
  }

  /** Where the id and the state `MatchState` returns sit in the line. */
  lemma MatchStateSearch(line: string, d: nat, g: GoroutineMatch)
    requires HasPrefix(line, "goroutine ") && 12 + d <= |line| && line[10 + d..12 + d] == " ["
    requires forall j :: 10 <= j < 10 + d ==> IsDigit(line[j])
    requires MatchState(line, d) == Some(g)
    ensures |g.id| == d && g.id == line[10..10 + d]
    ensures 12 + d + |g.state| <= |line| && g.state == line[12 + d..12 + d + |g.state|]
    ensures StateSearch(line, 12 + d, Span(line, 12 + d, NotComma), HeaderTail) == Some(|g.state|)
  {
  }

  /** The header `MatchState` accepts starts with `goroutine `, the id, ` [` and the state. */
  lemma MatchStateText(line: string, d: nat, g: GoroutineMatch)
    requires HasPrefix(line, "goroutine ") && 12 + d <= |line| && line[10 + d..12 + d] == " ["
    requires forall j :: 10 <= j < 10 + d ==> IsDigit(line[j])
    requires MatchState(line, d) == Some(g)
    ensures HasPrefix(line, "goroutine " + g.id + " [" + g.state)
  {
    MatchStateSearch(line, d, g);
    GoroutineText(line, d, g.id, g.state);
  }

  /** The state `MatchState` takes is the longest run of non-commas that leaves a header tail. */
  lemma MatchStateLongest(line: string, d: nat, g: GoroutineMatch)
    requires HasPrefix(line, "goroutine ") && 12 + d <= |line| && line[10 + d..12 + d] == " ["
    requires forall j :: 10 <= j < 10 + d ==> IsDigit(line[j])
    requires MatchState(line, d) == Some(g)
    ensures |g.id| == d && LongestState(line, 12 + d, Span(line, 12 + d, NotComma), |g.state|)
  {
    MatchStateSearch(line, d, g);
    HeaderSearch(line, 12 + d, Span(line, 12 + d, NotComma), |g.state|);
  }

  /** A matched header starts with `goroutine `, the id, ` [` and the state. */
  lemma MatchGoroutineText(line: Line)
    ensures MatchGoroutine(line).Some? ==>
      HasPrefix(line, "goroutine " + MatchGoroutine(line).value.id + " [" + MatchGoroutine(line).value.state)
  {
    if HasPrefix(line, "goroutine ") {
      var d := Span(line, 10, IsDigit);
      if d != 0 && HasPrefix(line[10 + d..], " [") {
        assert line[10 + d..][..2] == line[10 + d..12 + d];
        if MatchState(line, d).Some? {
          MatchStateText(line, d, MatchState(line, d).value);
        }
      }
    }
  }

  /**
   * The id of a matched header is the whole digit run after `goroutine `;
   * the state leaves a header tail, and no longer run of non-commas does.
   */
  lemma MatchGoroutineLongest(line: Line)
    ensures MatchGoroutine(line).Some? ==> Span(line, 10, IsDigit) == |MatchGoroutine(line).value.id|
    ensures MatchGoroutine(line).Some? ==>
      LongestState(line, 12 + |MatchGoroutine(line).value.id|,
        Span(line, 12 + |MatchGoroutine(line).value.id|, NotComma), |MatchGoroutine(line).value.state|)
  {
    if HasPrefix(line, "goroutine ") {
      var d := Span(line, 10, IsDigit);
      if d != 0 && HasPrefix(line[10 + d..], " [") {
        assert line[10 + d..][..2] == line[10 + d..12 + d];
        if MatchState(line, d).Some? {
          MatchStateLongest(line, d, MatchState(line, d).value);
        }
      }
    }
  }

  /** `StateSearch` returns `n` when the state of `n` characters is the longest one `accept`ed. */
  lemma {:induction false} StateSearchFinds(line: string, q: nat, k: nat, accept: string -> bool, n: nat)
    requires q + k <= |line| && 1 <= n <= k && accept(line[q + n..])
    requires forall j :: q + n < j <= q + k ==> !accept(line[j..])
    ensures StateSearch(line, q, k, accept) == Some(n)
    decreases k
  {
    if k != n {
      assert !accept(line[q + k..]);
      StateSearchFinds(line, q, k - 1, accept, n);
    }
  }

  /** Where the pieces of a header line built from its parts sit. */
  lemma HeaderPieces(line: string, id: string, state: string, tail: string)
    requires line == "goroutine " + id + " [" + state + tail
    ensures |line| == 12 + |id| + |state| + |tail|
    ensures line[..10] == "goroutine " && line[10..10 + |id|] == id && line[10 + |id|..12 + |id|] == " ["
    ensures line[12 + |id|..12 + |id| + |state|] == state && line[12 + |id| + |state|..] == tail
  {
    var x1 := "goroutine " + id;
    var x2 := x1 + " [";
    var x3 := x2 + state;
    assert line == x3 + tail;
    assert line[..|x3|] == x3 && line[|x3|..] == tail;
    assert x3[..|x2|] == x2 && x3[|x2|..] == state;
    assert x2[..|x1|] == x1 && x2[|x1|..] == " [";
    assert x1[..10] == "goroutine " && x1[10..] == id;
  }

  /** The longest state that leaves a header tail is the one `StateSearch` finds. */
  lemma LongestSearch(line: string, q: nat, k: nat, n: nat)
    requires LongestState(line, q, k, n)
    ensures StateSearch(line, q, k, HeaderTail) == Some(n)
  {
    var accept: string -> bool := HeaderTail;
    assert accept(line[q + n..]);
    forall j | q + n < j <= q + k ensures !accept(line[j..]) {
      assert !HeaderTail(line[j..]);
    }
    StateSearchFinds(line, q, k, accept, n);
  }

  /** A comma-free state followed by a header tail is the longest state that leaves one. */
  lemma TailRun(line: string, q: nat, state: string, tail: string)
    requires q + |state| + |tail| == |line|
    requires line[q..q + |state|] == state && line[q + |state|..] == tail
    requires state != "" && ',' !in state && HeaderTail(tail)
    ensures LongestState(line, q, Span(line, q, NotComma), |state|)
  {
    var n := |state|;
    HeaderTailStart(tail);
    assert forall k :: q <= k < q + n ==> line[k] == state[k - q];
    if tail == "]:" {
      assert line[q + n] == ']' && line[q + n + 1] == ':';
      SpanExact(line, q, NotComma, n + 2);
      NotHeaderTail();
      assert line[q + n + 1..] == ":" && line[q + n + 2..] == "";
    } else {
      assert line[q + n] == tail[0] == ',';
      SpanExact(line, q, NotComma, n);
    }
  }

  /** `StateSearch` finds a comma-free state followed by a header tail. */
  lemma TailSearch(line: string, q: nat, state: string, tail: string)
    requires q + |state| + |tail| == |line|
    requires line[q..q + |state|] == state && line[q + |state|..] == tail
    requires state != "" && ',' !in state && HeaderTail(tail)
    ensures StateSearch(line, q, Span(line, q, NotComma), HeaderTail) == Some(|state|)
  {
    TailRun(line, q, state, tail);
    LongestSearch(line, q, Span(line, q, NotComma), |state|);
  }

  /** When `StateSearch` finds `n` characters, `MatchState` returns them as the state. */
  lemma MatchStateOf(line: string, d: nat, n: nat)
    requires HasPrefix(line, "goroutine ") && 12 + d <= |line| && line[10 + d..12 + d] == " ["
    requires forall j :: 10 <= j < 10 + d ==> IsDigit(line[j])
    requires StateSearch(line, 12 + d, Span(line, 12 + d, NotComma), HeaderTail) == Some(n)
    ensures 12 + d + n <= |line|
    ensures MatchState(line, d) == Some(GoroutineMatch(line[10..10 + d], line[12 + d..12 + d + n]))
  {
  }

  /** Past the `goroutine ` prefix, the digit run and ` [`, the match is `MatchState`'s. */
  lemma MatchGoroutineIs(line: Line, d: nat)
    requires HasPrefix(line, "goroutine ") && d == Span(line, 10, IsDigit) && d != 0
    requires 12 + d <= |line| && line[10 + d..12 + d] == " ["
    ensures MatchGoroutine(line) == MatchState(line, d)
  {
    assert line[10 + d..][..2] == line[10 + d..12 + d];
  }

  /**
   * A well-formed header: `goroutine `, a digit run, ` [`, a non-empty
   * state without commas and a header tail. The match returns that id and
   * that state.
   */
  lemma MatchGoroutineComplete(line: Line, id: string, state: string, tail: string)
    requires line == "goroutine " + id + " [" + state + tail
    requires id != "" && forall k :: 0 <= k < |id| ==> IsDigit(id[k])
    requires state != "" && ',' !in state && HeaderTail(tail)
    ensures MatchGoroutine(line) == Some(GoroutineMatch(id, state))
  {
    HeaderPieces(line, id, state, tail);
    var d := |id|;
    assert forall j :: 10 <= j < 10 + d ==> line[j] == id[j - 10];
    assert line[10 + d] == ' ';
    SpanExact(line, 10, IsDigit, d);
    TailSearch(line, 12 + d, state, tail);
    MatchStateOf(line, d, |state|);
    MatchGoroutineIs(line, d);
  }

  /** `goroutine 1 [running]:` has id `1` and state `running`. */
  lemma RunningHeader()
    ensures MatchGoroutine("goroutine 1 [running]:") == Some(GoroutineMatch("1", "running"))
  {
    MatchGoroutineComplete("goroutine 1 [running]:", "1", "running", "]:");
  }

  /** A wait of `ds` minutes, with or without the thread lock, closes a header. */
  lemma MinutesTail(ds: string, locked: bool)
    requires ds != "" && forall k :: 0 <= k < |ds| ==> IsDigit(ds[k])
    ensures HeaderTail(", " + ds + (if locked then " minutes, locked to thread]:" else " minutes]:"))
  {
    var rest := if locked then " minutes, locked to thread]:" else " minutes]:";
    var t := ", " + ds + rest;
    assert t[..2] == ", " && t[2 + |ds|..] == rest;
    assert forall k :: 2 <= k < 2 + |ds| ==> t[k] == ds[k - 2];
    assert t[2 + |ds|] == rest[0] == ' ';
    SpanExact(t, 2, IsDigit, |ds|);
  }

  lemma LockedTail()
    ensures HeaderTail(", " + "5" + " minutes, locked to thread]:")
  {
    MinutesTail("5", true);
  }

  /**
   * The header `goroutine 7 [select, 5 minutes, locked to thread]:`, written
   * piece by piece, keeps only the state before the first comma.
   */
  lemma LockedHeader()
    ensures MatchGoroutine("goroutine " + "7" + " [" + "select" + (", " + "5" + " minutes, locked to thread]:"))
        == Some(GoroutineMatch("7", "select"))
  {
    LockedTail();
    MatchGoroutineComplete("goroutine " + "7" + " [" + "select" + (", " + "5" + " minutes, locked to thread]:"),
      "7", "select", ", " + "5" + " minutes, locked to thread]:");
  }

  // ---------------------------------------------------------------- source location

  datatype FileMatch = FileMatch(file: string, lineDigits: string, rest: string)

  /** A ':' at `p` followed by a digit: a place where `(.+):(\d+)` can split. */
  predicate ColonDigitAt(line: string, p: int) {
    0 <= p && p + 1 < |line| && line[p] == ':' && IsDigit(line[p + 1])
  }

  /** The last position p in (lo, hi] with `line[p] == ':'` followed by a digit. */
  function LastColonDigit(line: string, lo: nat, hi: nat): (r: Option<nat>)
    requires hi + 1 < |line| || hi == lo
    ensures r.Some? ==> lo < r.value <= hi && ColonDigitAt(line, r.value)
    ensures r.Some? ==> forall p :: r.value < p <= hi ==> !ColonDigitAt(line, p)
    ensures r.None? ==> forall p :: lo < p <= hi ==> !ColonDigitAt(line, p)
    decreases hi
  {
    if hi <= lo then None
    else if line[hi] == ':' && IsDigit(line[hi + 1]) then Some(hi)
    else LastColonDigit(line, lo, hi - 1)
  }

  /**
   * `^\s*(.+):(\d+)\s*(.*)$`. `(.+)` ends at the last ':' followed by a
   * digit. The leading `\s*` takes all leading whitespace unless the only
   * such ':' comes right after it; then `\s*` gives back its last character,
   * which becomes the whole of `(.+)`. `\d+` and `\s*` are greedy and `(.*)`
   * takes the rest.
   */
  function MatchFile(line: Line): (r: Option<FileMatch>)
    ensures r.Some? ==> r.value.file != "" && r.value.lineDigits != ""
    ensures r.Some? ==> forall k :: 0 <= k < |r.value.lineDigits| ==> IsDigit(r.value.lineDigits[k])
  {
    if |line| < 2 then None
    else
      var s := Span(line, 0, IsSpace);
      var colon := LastColonDigit(line, if s > 0 then s - 1 else 0, |line| - 2);
      if colon.None? then None
      else Some(FileSplit(line, if colon.value == s then s - 1 else s, colon.value))
  }

  /** `(.+)` from `start` up to the ':' at `p`, then the greedy `(\d+)\s*` and the rest. */
  function FileSplit(line: string, start: nat, p: nat): (m: FileMatch)
    requires start < p && ColonDigitAt(line, p)
    ensures m.file != "" && m.lineDigits != ""
    ensures forall k :: 0 <= k < |m.lineDigits| ==> IsDigit(m.lineDigits[k])
  {
    var d := Span(line, p + 1, IsDigit);
    var w := Span(line, p + 1 + d, IsSpace);
    FileMatch(line[start..p], line[p + 1..p + 1 + d], line[p + 1 + d + w..])
  }

  predicate AllSpace(t: string) { forall k :: 0 <= k < |t| ==> IsSpace(t[k]) }

  predicate AllDigits(t: string) { forall k :: 0 <= k < |t| ==> IsDigit(t[k]) }

  /** No ':' followed by a digit comes after position `p`. */
  predicate NoColonDigitAfter(line: string, p: int) {
    forall q :: p < q < |line| ==> !ColonDigitAt(line, q)
  }

  /**
   * The line reads `lead + file + ":" + digits + gap + rest` the way the
   * leftmost-first match splits it: `lead` and `gap` are whitespace, `file`
   * starts after all leading whitespace or is the one whitespace character
   * in front of the ':', the digits and the gap are as long as they can be,
   * and no ':' followed by a digit comes after the chosen one.
   */
  predicate FileParts(line: string, lead: string, m: FileMatch, gap: string) {
    && line == Concat([lead, m.file, ":", m.lineDigits, gap, m.rest])
    && AllSpace(lead) && AllSpace(gap)
    && m.file != "" && (IsSpace(m.file[0]) ==> |m.file| == 1)
    && m.lineDigits != "" && AllDigits(m.lineDigits)
    && (gap == "" && m.rest != "" ==> !IsDigit(m.rest[0]))
    && (m.rest == "" || !IsSpace(m.rest[0]))
    && NoColonDigitAfter(line, |lead| + |m.file|)
  }

  /**
   * The same split told by positions: `(.+)` is `line[start..p]`, the digits
   * are the `d` characters after the ':' at `p`, and the gap the `w` after them.
   */
  predicate SplitAt(line: string, start: nat, p: nat, d: nat, w: nat) {
    && start < p && ColonDigitAt(line, p) && p + 1 + d + w <= |line|
    && AllSpace(line[..start]) && (IsSpace(line[start]) ==> p == start + 1)
    && d > 0 && AllDigits(line[p + 1..p + 1 + d]) && (p + 1 + d == |line| || !IsDigit(line[p + 1 + d]))
    && AllSpace(line[p + 1 + d..p + 1 + d + w]) && (p + 1 + d + w == |line| || !IsSpace(line[p + 1 + d + w]))
    && NoColonDigitAfter(line, p)
  }

  function SplitMatch(line: string, start: nat, p: nat, d: nat, w: nat): FileMatch
    requires start <= p < p + 1 + d + w <= |line|
  {
    FileMatch(line[start..p], line[p + 1..p + 1 + d], line[p + 1 + d + w..])
  }

  /**
   * The file line matches exactly when it has a ':' followed by a digit
   * somewhere after its first character, and the match splits it as
   * `FileParts` says.
   */
  lemma MatchFileParts(line: Line)
    ensures MatchFile(line).None? <==> forall p :: 0 < p < |line| ==> !ColonDigitAt(line, p)
    ensures MatchFile(line).Some? ==> exists lead, gap :: FileParts(line, lead, MatchFile(line).value, gap)
  {
    var s := Span(line, 0, IsSpace);
    if |line| >= 2 {
      var lo := if s > 0 then s - 1 else 0;
      forall p | 0 < p <= lo ensures !ColonDigitAt(line, p) {
        assert IsSpace(line[p]);
      }
      match LastColonDigit(line, lo, |line| - 2)
      case None =>
        assert MatchFile(line) == None;
        assert !ColonDigitAt(line, |line| - 1);
      case Some(p) =>
        assert ColonDigitAt(line, p);
        var start := if p == s then s - 1 else s;
        assert MatchFile(line) == Some(FileSplit(line, start, p));
        assert start < s ==> IsSpace(line[start]);
        assert AllSpace(line[..start]) by {
          forall k | 0 <= k < start ensures IsSpace(line[..start][k]) {
            assert line[..start][k] == line[k] && k < s;
          }
        }
        assert NoColonDigitAfter(line, p) by {
          assert !ColonDigitAt(line, |line| - 1);
        }
        FileSplitParts(line, start, p);
    }
  }

  /** The split `FileSplit` makes at the last ':' followed by a digit is a `FileParts` split. */
  lemma FileSplitParts(line: string, start: nat, p: nat)
    requires start < p && ColonDigitAt(line, p)
    requires AllSpace(line[..start]) && (IsSpace(line[start]) ==> p == start + 1)
    requires NoColonDigitAfter(line, p)
    ensures exists gap :: FileParts(line, line[..start], FileSplit(line, start, p), gap)
  {
    var d := Span(line, p + 1, IsDigit);
    var w := Span(line, p + 1 + d, IsSpace);
    RunsAfter(line, p, d, w);
    assert SplitAt(line, start, p, d, w);
    FileSplitOf(line, start, p, d, w);
    SplitAtParts(line, start, p, d, w);
  }

  /** The runs `Span` measures after the ':' at `p` are digits and whitespace. */
  lemma RunsAfter(line: string, p: nat, d: nat, w: nat)
    requires ColonDigitAt(line, p) && d == Span(line, p + 1, IsDigit) && w == Span(line, p + 1 + d, IsSpace)
    ensures d > 0 && p + 1 + d + w <= |line|
    ensures AllDigits(line[p + 1..p + 1 + d]) && (p + 1 + d == |line| || !IsDigit(line[p + 1 + d]))
    ensures AllSpace(line[p + 1 + d..p + 1 + d + w]) && (p + 1 + d + w == |line| || !IsSpace(line[p + 1 + d + w]))
  {
    var ds, gap := line[p + 1..p + 1 + d], line[p + 1 + d..p + 1 + d + w];
    forall k | 0 <= k < |ds| ensures IsDigit(ds[k]) {
      assert ds[k] == line[p + 1 + k];
    }
    forall k | 0 <= k < |gap| ensures IsSpace(gap[k]) {
      assert gap[k] == line[p + 1 + d + k];
    }
  }

  /** A positional split is a `FileParts` split. */
  lemma SplitAtParts(line: string, start: nat, p: nat, d: nat, w: nat)
    requires SplitAt(line, start, p, d, w)
    ensures FileParts(line, line[..start], SplitMatch(line, start, p, d, w), line[p + 1 + d..p + 1 + d + w])
  {
    var lead, gap := line[..start], line[p + 1 + d..p + 1 + d + w];
    var m := SplitMatch(line, start, p, d, w);
    SliceParts(line, start, p, p + 1 + d, p + 1 + d + w, lead, m.file, m.lineDigits, gap, m.rest);
    assert m.file[0] == line[start];
    assert gap != "" ==> gap[0] == line[p + 1 + d];
    assert m.rest != "" ==> m.rest[0] == line[p + 1 + d + w];
    assert |lead| + |m.file| == p;
  }

  /** A `FileParts` split is a positional split. */
  lemma PartsSplitAt(line: string, lead: string, m: FileMatch, gap: string)
    requires FileParts(line, lead, m, gap)
    ensures SplitAt(line, |lead|, |lead| + |m.file|, |m.lineDigits|, |gap|)
    ensures m == SplitMatch(line, |lead|, |lead| + |m.file|, |m.lineDigits|, |gap|)
  {
    var p := |lead| + |m.file|;
    var e := p + 1 + |m.lineDigits|;
    PiecesAt(line, lead, m.file, m.lineDigits, gap, m.rest, p, e);
    SlicesSplitAt(line, lead, m, gap, p, e);
  }

  /** `PartsSplitAt` once the six pieces have been located in the line. */
  lemma SlicesSplitAt(line: string, lead: string, m: FileMatch, gap: string, p: nat, e: nat)
    requires p == |lead| + |m.file| && e == p + 1 + |m.lineDigits| && |line| == e + |gap| + |m.rest| && line[p] == ':'
    requires line[..|lead|] == lead && line[|lead|..p] == m.file && line[p + 1..e] == m.lineDigits
    requires line[e..e + |gap|] == gap && line[e + |gap|..] == m.rest
    requires AllSpace(lead) && AllSpace(gap)
    requires m.file != "" && (IsSpace(m.file[0]) ==> |m.file| == 1)
    requires m.lineDigits != "" && AllDigits(m.lineDigits)
    requires (gap == "" && m.rest != "" ==> !IsDigit(m.rest[0])) && (m.rest == "" || !IsSpace(m.rest[0]))
    requires NoColonDigitAfter(line, p)
    ensures SplitAt(line, |lead|, p, |m.lineDigits|, |gap|)
    ensures m == SplitMatch(line, |lead|, p, |m.lineDigits|, |gap|)
  {
    var G := |gap|;
    assert line[|lead|] == m.file[0];
    assert line[p + 1] == m.lineDigits[0];
    assert G > 0 ==> line[e] == gap[0];
    assert e + G < |line| ==> line[e + G] == m.rest[0];
    assert G == 0 && e < |line| ==> line[e] == m.rest[0];
  }

  /**
   * Conversely, a line split as `FileParts` says is matched with exactly
   * that split: for instance `"  :5"` gives file `" "`, and `" \t:12 +0x1"`
   * gives file `"\t"`, line `"12"` and rest `"+0x1"`.
   */
  lemma MatchFileComplete(line: Line, lead: string, m: FileMatch, gap: string)
    requires FileParts(line, lead, m, gap)
    ensures MatchFile(line) == Some(m)
  {
    PartsSplitAt(line, lead, m, gap);
    MatchSplitAt(line, |lead|, |lead| + |m.file|, |m.lineDigits|, |gap|);
  }

  /** When the only ':' and digit follow the leading blanks, `\s*` gives its last blank to `(.+)`. */
  lemma BlankFileExample()
    ensures MatchFile("  :5") == Some(FileMatch(" ", "5", ""))
  {
    var line: Line := "  :5";
    var m := FileMatch(" ", "5", "");
    ConcatSix(" ", m.file, ":", m.lineDigits, "", m.rest);
    MatchFileComplete(line, " ", m, "");
  }

  /** The same with a tab as the last blank, and a rest after the line number. */
  lemma TabFileExample()
    ensures MatchFile(" \t:12 +0x1") == Some(FileMatch("\t", "12", "+0x1"))
  {
    var line: Line := " \t:12 +0x1";
    var m := FileMatch("\t", "12", "+0x1");
    ConcatSix(" ", m.file, ":", m.lineDigits, " ", m.rest);
    assert line == " " + m.file + ":" + m.lineDigits + " " + m.rest;
    assert AllDigits(m.lineDigits) && AllSpace(" ") && !IsSpace(m.rest[0]);
    forall q | 2 < q < |line| ensures !ColonDigitAt(line, q) {
      assert line[q] != ':';
    }
    MatchFileComplete(line, " ", m, " ");
  }

  /** `MatchFile` finds a positional split. */
  lemma MatchSplitAt(line: Line, start: nat, p: nat, d: nat, w: nat)
    requires SplitAt(line, start, p, d, w)
    ensures MatchFile(line) == Some(SplitMatch(line, start, p, d, w))
  {
    var s := Span(line, 0, IsSpace);
    LeadingSpace(line, start, p, s);
    LastColonDigitIs(line, if s > 0 then s - 1 else 0, |line| - 2, p);
    MatchFileAt(line, start, p, s);
    RunsAt(line, p, d, w);
    FileSplitOf(line, start, p, d, w);
  }

  /** `FileSplit` cuts where the two runs after the ':' end. */
  lemma FileSplitOf(line: string, start: nat, p: nat, d: nat, w: nat)
    requires start < p && ColonDigitAt(line, p) && p + 1 + d + w <= |line|
    requires Span(line, p + 1, IsDigit) == d && Span(line, p + 1 + d, IsSpace) == w
    ensures FileSplit(line, start, p) == SplitMatch(line, start, p, d, w)
  {
  }

  /** Where `MatchFile` starts `(.+)` when the ':' it ends at is at `p`. */
  lemma LeadingSpace(line: string, start: nat, p: nat, s: nat)
    requires start < p < |line| && line[p] == ':' && s == Span(line, 0, IsSpace)
    requires AllSpace(line[..start]) && (IsSpace(line[start]) ==> p == start + 1)
    ensures start == (if p == s then s - 1 else s) && (s > 0 ==> s - 1 < p)
  {
    forall k | 0 <= k < start ensures IsSpace(line[k]) {
      assert line[..start][k] == line[k];
    }
    if IsSpace(line[start]) {
      SpanExact(line, 0, IsSpace, p);
    } else {
      SpanExact(line, 0, IsSpace, start);
    }
  }

  /** `MatchFile` returns the split at the positions it finds. */
  lemma MatchFileAt(line: Line, start: nat, p: nat, s: nat)
    requires |line| >= 2 && start < p && ColonDigitAt(line, p) && s == Span(line, 0, IsSpace)
    requires start == (if p == s then s - 1 else s) && LastColonDigit(line, if s > 0 then s - 1 else 0, |line| - 2) == Some(p)
    ensures MatchFile(line) == Some(FileSplit(line, start, p))
  {
  }

  /** The digit run and the gap after the ':' are as long as `SplitAt` says. */
  lemma RunsAt(line: string, p: nat, d: nat, w: nat)
    requires p + 1 + d + w <= |line|
    requires AllDigits(line[p + 1..p + 1 + d]) && (p + 1 + d == |line| || !IsDigit(line[p + 1 + d]))
    requires AllSpace(line[p + 1 + d..p + 1 + d + w]) && (p + 1 + d + w == |line| || !IsSpace(line[p + 1 + d + w]))
    ensures Span(line, p + 1, IsDigit) == d && Span(line, p + 1 + d, IsSpace) == w
  {
    var ds, gap := line[p + 1..p + 1 + d], line[p + 1 + d..p + 1 + d + w];
    forall k | p + 1 <= k < p + 1 + d ensures IsDigit(line[k]) {
      assert ds[k - (p + 1)] == line[k];
    }
    forall k | p + 1 + d <= k < p + 1 + d + w ensures IsSpace(line[k]) {
      assert gap[k - (p + 1 + d)] == line[k];
    }
    SpanExact(line, p + 1, IsDigit, d);
    SpanExact(line, p + 1 + d, IsSpace, w);
  }

  /** `LastColonDigit` finds a ':' followed by a digit when no later one is in range. */
  lemma {:induction false} LastColonDigitIs(line: string, lo: nat, hi: nat, p: nat)
    requires hi + 1 < |line| && lo < p <= hi && ColonDigitAt(line, p)
    requires NoColonDigitAfter(line, p)
    ensures LastColonDigit(line, lo, hi) == Some(p)
    decreases hi
  {
    if hi > p {
      assert !ColonDigitAt(line, hi);
      LastColonDigitIs(line, lo, hi - 1, p);
    }
  }

  /** Where each of the six pieces of a file line sits. */
  lemma PiecesAt(line: string, lead: string, file: string, digits: string, gap: string, rest: string, p: nat, e: nat)
    requires line == Concat([lead, file, ":", digits, gap, rest])
    requires p == |lead| + |file| && e == p + 1 + |digits|
    ensures |line| == e + |gap| + |rest| && line[p] == ':'
    ensures line[..|lead|] == lead && line[|lead|..p] == file && line[p + 1..e] == digits
    ensures line[e..e + |gap|] == gap && line[e + |gap|..] == rest
  {
    ConcatSix(lead, file, ":", digits, gap, rest);
    var x1 := lead + file;
    var x2 := x1 + ":";
    var x3 := x2 + digits;
    var x4 := x3 + gap;
    assert line == x4 + rest;
    assert line[..|x4|] == x4 && line[|x4|..] == rest;
    assert line[e..e + |gap|] == x4[e..] == gap;
    assert line[..e] == x3 && line[p + 1..e] == x3[p + 1..] == digits;
    assert line[..p] == x1 && line[|lead|..p] == x1[|lead|..] == file && line[..|lead|] == x1[..|lead|] == lead;
  }

  /** A string is the concatenation of its slices at five cut points around one ':'. */
  lemma SliceParts(t: string, a: nat, p: nat, b: nat, c: nat,
                   lead: string, file: string, digits: string, gap: string, rest: string)
    requires a <= p < b <= c <= |t| && t[p] == ':'
    requires lead == t[..a] && file == t[a..p] && digits == t[p + 1..b] && gap == t[b..c] && rest == t[c..]
    ensures t == Concat([lead, file, ":", digits, gap, rest])
  {
    ConcatSix(lead, file, ":", digits, gap, rest);
    assert t[p..p + 1] == ":";
    assert t == t[..a] + t[a..p] + t[p..p + 1] + t[p + 1..b] + t[b..c] + t[c..];
  }

  // ---------------------------------------------------------------- elision marker

  const ElisionMarker: string := "...additional frames elided..."

  predicate IsElision(line: Line) { HasPrefix(line, ElisionMarker) }

  // ---------------------------------------------------------------- frame descriptors

  /** The capture groups of a frame descriptor that the parser keeps. */
  datatype FrameMatch = FrameMatch(raw: string, pkg: string, pointer: bool, receiver: string, func: string)

  /** Groups 2 to 5 while a frame match is being searched for. */
  datatype Captures = Captures(pkg: string, pointer: bool, receiver: string, func: string)

  function WithRaw(line: string, c: Option<Captures>): (r: Option<FrameMatch>)
    ensures r.Some? <==> c.Some?
    ensures r.Some? ==> r.value.raw == line && r.value.func == c.value.func
  {
    match c
    case None => None
    case Some(k) => Some(FrameMatch(line, k.pkg, k.pointer, k.receiver, k.func))
  }

  // ----- parser.go: ^(created by )?(?:([^\/\(]*\/?[^\.\(]*)\.)?(?:\((\*)?([^\)]+)\))?\.?([^\(]+)(?:\(([^\)]*)\))?$

  /**
   * `([^\(]+)(?:\(([^\)]*)\))?$`: the function name is the longest run
   * without '(' (a shorter one would be followed by neither '(' nor the
   * end); what follows is nothing or one parenthesised list without ')'.
   */
  function RootCall(u: string): (r: Option<string>)
    ensures r.Some? ==> r.value != "" && '(' !in r.value && HasPrefix(u, r.value)
    ensures '(' !in u && u != "" ==> r == Some(u)
  {
    var n := Span(u, 0, NotOpen);
    if n == 0 then None
    else if n == |u| then Some(u)
    else
      var m := Span(u, n + 1, NotClose);
      if n + 1 + m + 1 == |u| then Some(u[..n]) else None
  }

  /** `\.?` then the call: with the dot first, then without it. */
  function RootDotCall(u: string): (r: Option<string>)
    ensures r.Some? ==> r.value != "" && '(' !in r.value
    ensures '(' !in u && u != "" ==> r.Some?
  {
    if |u| > 0 && u[0] == '.' && RootCall(u[1..]).Some? then RootCall(u[1..]) else RootCall(u)
  }

  /** `\((\*)?([^\)]+)\)` starting at `r[start..]`, then the rest of the line. */
  function RootReceiver(pkg: string, r: string, start: nat, pointer: bool): (c: Option<Captures>)
    requires start <= |r|
    ensures c.Some? ==> c.value.func != "" && '(' !in c.value.func
  {
    var k := Span(r, start, NotClose);
    if k == 0 || start + k == |r| then None
    else
      match RootDotCall(r[start + k + 1..])
      case None => None
      case Some(f) => Some(Captures(pkg, pointer, r[start..start + k], f))
  }

  /** Everything after the optional package group. */
  function RootAfterPackage(pkg: string, r: string): (c: Option<Captures>)
    ensures c.Some? ==> c.value.func != "" && '(' !in c.value.func
    ensures '(' !in r && r != "" ==> c.Some?
  {
    var starred := if |r| >= 2 && r[0] == '(' && r[1] == '*' then RootReceiver(pkg, r, 2, true) else None;
    if starred.Some? then starred
    else
      var plain := if |r| >= 1 && r[0] == '(' then RootReceiver(pkg, r, 1, false) else None;
      if plain.Some? then plain
      else
        match RootDotCall(r)
        case None => None
        case Some(f) => Some(Captures(pkg, false, "", f))
  }

  /**
   * The package group ends at `q` plus the longest run without '.' or '(';
   * a shorter run would not be followed by the '.' the group needs.
   */
  function RootPackageEnd(t: string, q: nat): (c: Option<Captures>)
    requires q <= |t|
    ensures c.Some? ==> c.value.func != "" && '(' !in c.value.func
  {
    var e := q + Span(t, q, NotDotOrOpen);
    if e < |t| && t[e] == '.' then RootAfterPackage(t[..e], t[e + 1..]) else None
  }

  /**
   * `[^\/\(]*` of length `a`, longest first; for each, `\/?` present first.
   */
  function RootPackageSearch(t: string, a: nat): (c: Option<Captures>)
    requires a <= |t|
    ensures c.Some? ==> c.value.func != "" && '(' !in c.value.func
    decreases a
  {
    var viaSlash := if a < |t| && t[a] == '/' then RootPackageEnd(t, a + 1) else None;
    if viaSlash.Some? then viaSlash
    else
      var direct := RootPackageEnd(t, a);
      if direct.Some? then direct
      else if a == 0 then None
      else RootPackageSearch(t, a - 1)
  }

  /** The package group present (all ways), else absent. */
  function RootFrameBody(t: string): (c: Option<Captures>)
    ensures c.Some? ==> c.value.func != "" && '(' !in c.value.func
    ensures '(' !in t && t != "" ==> c.Some?
  {
    var withPackage := RootPackageSearch(t, Span(t, 0, NotSlashOrOpen));
    if withPackage.Some? then withPackage else RootAfterPackage("", t)
  }

  /**
   * The frame descriptor of parser.go. It needs at least one character of
   * function name, so an empty line never matches, and every non-empty
   * line without '(' matches.
   */
  function MatchRootFrame(line: Line): (r: Option<FrameMatch>)
    ensures r.Some? ==> r.value.raw == line && r.value.func != "" && line != ""
    ensures '(' !in line && line != "" ==> r.Some?
  {
    var created := if HasPrefix(line, "created by ") then RootFrameBody(line[11..]) else None;
    WithRaw(line, if created.Some? then created else RootFrameBody(line))
  }

  // ----- panicparse/parser.go: ^(created by )?([^\(]+)(?:\.\((\*)?([^\)]+)\))?\.([^\(]+)(?:\((.*)\))?$

  /**
   * `([^\(]+)(?:\((.*)\))?$`: the longest run without '(', then nothing or
   * a '(' whose line ends in ')'.
   */
  function LegacyCall(u: string): (r: Option<string>)
    ensures r.Some? ==> r.value != "" && '(' !in r.value && HasPrefix(u, r.value)
  {
    var n := Span(u, 0, NotOpen);
    if n == 0 then None
    else if n == |u| then Some(u)
    else if |u| >= n + 2 && u[|u| - 1] == ')' then Some(u[..n])
    else None
  }

  /** `\.\((\*)?([^\)]+)\)` from `r[start..]`, then `\.` and the call. */
  function LegacyReceiverRest(pkg: string, r: string, start: nat, pointer: bool): (c: Option<Captures>)
    requires start <= |r|
    ensures c.Some? ==> c.value.func != "" && '(' !in c.value.func
  {
    var k := Span(r, start, NotClose);
    if k == 0 || start + k == |r| then None
    else
      var after := r[start + k + 1..];
      if |after| == 0 || after[0] != '.' then None
      else
        match LegacyCall(after[1..])
        case None => None
        case Some(f) => Some(Captures(pkg, pointer, r[start..start + k], f))
  }

  function LegacyReceiver(pkg: string, r: string): (c: Option<Captures>)
    ensures c.Some? ==> c.value.func != "" && '(' !in c.value.func
  {
    if |r| < 2 || r[0] != '.' || r[1] != '(' then None
    else
      var starred := if |r| >= 3 && r[2] == '*' then LegacyReceiverRest(pkg, r, 3, true) else None;
      if starred.Some? then starred else LegacyReceiverRest(pkg, r, 2, false)
  }

  /** `([^\(]+)` of length `g`, longest first; for each, the receiver group present first. */
  function LegacyPackageSearch(t: string, g: nat): (c: Option<Captures>)
    requires g <= |t|
    ensures c.Some? ==> c.value.func != "" && '(' !in c.value.func && c.value.pkg != ""
    decreases g
  {
    if g == 0 then None
    else
      var r := t[g..];
      var withReceiver := LegacyReceiver(t[..g], r);
      if withReceiver.Some? then withReceiver
      else
        var plain := if |r| > 0 && r[0] == '.' then LegacyCall(r[1..]) else None;
        if plain.Some? then Some(Captures(t[..g], false, "", plain.value))
        else LegacyPackageSearch(t, g - 1)
  }

  /**
   * The frame descriptor of panicparse/parser.go. Its package group is
   * mandatory and must be followed by '.', so a call such as `panic(...)`
   * with no '.' before its '(' does not match.
   */
  function MatchLegacyFrame(line: Line): (r: Option<FrameMatch>)
    ensures r.Some? ==> r.value.raw == line && r.value.func != "" && r.value.pkg != ""
  {
    var created := if HasPrefix(line, "created by ") then LegacyPackageSearch(line[11..], Span(line[11..], 0, NotOpen)) else None;
    WithRaw(line, if created.Some? then created else LegacyPackageSearch(line, Span(line, 0, NotOpen)))
  }

  /** A call without '(' in its name, with or without a parenthesised argument list. */
  predicate CallTail(tail: string) {
    tail == "" || (|tail| >= 2 && tail[0] == '(' && tail[|tail| - 1] == ')')
  }

  /** `([^\(]+)(?:\((.*)\))?$` takes the whole name before the argument list. */
  lemma LegacyCallOf(func: string, tail: string)
    requires func != "" && '(' !in func && CallTail(tail)
    ensures LegacyCall(func + tail) == Some(func)
  {
    var u := func + tail;
    assert u[..|func|] == func && u[|func|..] == tail;
    assert forall k :: 0 <= k < |func| ==> u[k] == func[k];
    if tail != "" {
      assert u[|func|] == '(';
    }
    SpanExact(u, 0, NotOpen, |func|);
  }

  /** Package ends not followed by '.' are passed over. */
  lemma {:induction false} LegacySearchSkips(t: string, m: nat, g: nat)
    requires m <= g <= |t|
    requires forall j :: m < j <= g ==> j == |t| || t[j] != '.'
    ensures LegacyPackageSearch(t, g) == LegacyPackageSearch(t, m)
    decreases g
  {
    if g > m {
      LegacySearchSkips(t, m, g - 1);
    }
  }

  /** The package `pkg` followed by `.` and a call gives that call as the function. */
  lemma LegacyPackageAt(line: string, pkg: string, func: string, tail: string)
    requires line == pkg + "." + func + tail
    requires pkg != "" && func != "" && '(' !in func && CallTail(tail)
    ensures LegacyPackageSearch(line, |pkg|) == Some(Captures(pkg, false, "", func))
  {
    var r := line[|pkg|..];
    assert line[..|pkg|] == pkg && r == "." + func + tail;
    assert r[1..] == func + tail && r[1] == func[0];
    LegacyCallOf(func, tail);
  }

  /**
   * A plain frame line: a package without '(', '.', a function name
   * without '.' or '(', then nothing or a parenthesised argument list. The
   * match gives that package and that function, with no receiver.
   */
  lemma MatchLegacyFrameComplete(line: Line, pkg: string, func: string, tail: string)
    requires line == pkg + "." + func + tail && !HasPrefix(line, "created by ")
    requires pkg != "" && '(' !in pkg
    requires func != "" && '(' !in func && '.' !in func && CallTail(tail)
    ensures MatchLegacyFrame(line) == Some(FrameMatch(line, pkg, false, "", func))
  {
    var e := |pkg| + 1 + |func|;
    assert line[..|pkg|] == pkg && line[|pkg|] == '.' && line[|pkg| + 1..e] == func && line[e..] == tail;
    assert forall k :: 0 <= k < |pkg| ==> line[k] == pkg[k];
    assert forall k :: |pkg| < k < e ==> line[k] == func[k - |pkg| - 1];
    if tail != "" {
      assert line[e] == '(';
    }
    SpanExact(line, 0, NotOpen, e);
    LegacySearchSkips(line, |pkg|, e);
    LegacyPackageAt(line, pkg, func, tail);
  }

  lemma ElisionSpan()
    ensures |ElisionMarker| == 30 && '(' !in ElisionMarker
    ensures Span(ElisionMarker, 0, NotOpen) == 30
  {
    SpanExact(ElisionMarker, 0, NotOpen, 30);
  }

  lemma ElisionSearch()
    ensures LegacyPackageSearch(ElisionMarker, 30) == Some(Captures(ElisionMarker[..28], false, "", "."))
    ensures !HasPrefix(ElisionMarker, "created by ")
  {
    var t := ElisionMarker;
    assert t[0] == '.';
    assert t[29..] == "." && t[28..] == "..";
    assert LegacyCall(t[28..][1..]) == Some(".");
    assert LegacyPackageSearch(t, 30) == LegacyPackageSearch(t, 29) == LegacyPackageSearch(t, 28);
  }

  /**
   * The elision marker matches the frame expression of panicparse/parser.go:
   * the package takes all but the last '.', and that '.' is the function.
   */
  lemma LegacyElisionMatch(line: Line)
    requires line == ElisionMarker
    ensures MatchLegacyFrame(line) == Some(FrameMatch(line, line[..28], false, "", "."))
  {
    ElisionSpan();
    ElisionSearch();
  }
}
