/** naisd's log buffer: lines collect under a lock and leave in batches, published by a
    ticker and by Close. */
module LogBuffer {

  datatype LogLine = LogLine(msg: string, kind: string)

  datatype Event = Event(name: string, apiVersion: string, kind: string, message: string)

  type Batch = seq<LogLine>

  // ----- Lines -----

  predicate IsSpace(c: char) {
    c == ' ' || c == '\t' || c == '\n' || c == '\r' || c == '\U{000b}' || c == '\U{000c}'
  }

  function TrimLeft(s: string): string {
    if s != [] && IsSpace(s[0]) then TrimLeft(s[1..]) else s
  }

  function TrimRight(s: string): string {
    if s != [] && IsSpace(s[|s| - 1]) then TrimRight(s[..|s| - 1]) else s
  }

  function TrimSpace(s: string): string {
    TrimRight(TrimLeft(s))
  }

  /** bytes.Split at newlines: one piece more than there are newlines. */
  function Split(s: string): (pieces: seq<string>)
    ensures |pieces| >= 1
  {
    if s == [] then [""]
    else
      var rest := Split(s[1..]);
      if s[0] == '\n' then [""] + rest else [[s[0]] + rest[0]] + rest[1..]
  }

  function Join(pieces: seq<string>): string {
    if pieces == [] then "" else if |pieces| == 1 then pieces[0] else pieces[0] + "\n" + Join(pieces[1..])
  }

  /** Splitting loses nothing, and no piece holds a newline. */
  lemma {:induction false} SplitJoin(s: string)
    ensures Join(Split(s)) == s
    ensures forall i :: 0 <= i < |Split(s)| ==> '\n' !in Split(s)[i]
  {
    if s != [] {
      SplitJoin(s[1..]);
      var rest := Split(s[1..]);
      assert s == [s[0]] + s[1..];
      if s[0] == '\n' {
        assert ([""] + rest)[1..] == rest;
      } else if |rest| > 1 {
        assert ([[s[0]] + rest[0]] + rest[1..])[1..] == rest[1..];
      }
    }
  }

  /** White space, as for ASCII. */
  predicate IsBlank(c: char) {
    c in {' ', '\t', '\n', '\r', 11 as char, 12 as char}
  }

  predicate AllBlank(s: string) {
    forall i :: 0 <= i < |s| ==> IsBlank(s[i])
  }

  lemma {:induction false} TrimLeftExactly(s: string) returns (i: nat)
    ensures i <= |s| && TrimLeft(s) == s[i..] && AllBlank(s[..i]) && (i < |s| ==> !IsBlank(s[i]))
  {
    i := 0;
    if s != [] && IsSpace(s[0]) {
      i := TrimLeftExactly(s[1..]);
      i := i + 1;
      assert s[..i] == [s[0]] + s[1..][..i - 1];
      assert s[i..] == s[1..][i - 1..];
    }
  }

  lemma {:induction false} TrimRightExactly(s: string) returns (j: nat)
    ensures j <= |s| && TrimRight(s) == s[..j] && AllBlank(s[j..]) && (j > 0 ==> !IsBlank(s[j - 1]))
  {
    j := |s|;
    if s != [] && IsSpace(s[|s| - 1]) {
      j := TrimRightExactly(s[..|s| - 1]);
      assert s[..j] == s[..|s| - 1][..j];
      assert s[j..] == s[..|s| - 1][j..] + [s[|s| - 1]];
    } else {
      assert s[..|s|] == s;
    }
  }

  /** What is written is the text without the white space at its ends, and no more is cut. */
  lemma {:induction false} TrimExactly(s: string) returns (i: nat, j: nat)
    ensures i <= j <= |s| && TrimSpace(s) == s[i..j] && AllBlank(s[..i]) && AllBlank(s[j..])
    ensures i < j ==> !IsBlank(s[i]) && !IsBlank(s[j - 1])
  {
    i := TrimLeftExactly(s);
    j := TrimRightExactly(s[i..]);
    assert s[i..i + j] == s[i..][..j];
    assert s[i + j..] == s[i..][j..];
    j := i + j;
  }

  /** The lines' texts, each but the last followed by a newline. */
  function Joined(lines: seq<LogLine>): string {
    if lines == [] then ""
    else if |lines| == 1 then lines[0].msg
    else lines[0].msg + "\n" + Joined(lines[1..])
  }

  lemma {:induction false} JoinedPlain(pieces: seq<string>)
    ensures Joined(seq(|pieces|, i requires 0 <= i < |pieces| => Plain(pieces[i]))) == Join(pieces)
  {
    if |pieces| > 1 {
      JoinedPlain(pieces[1..]);
      var lines := seq(|pieces|, i requires 0 <= i < |pieces| => Plain(pieces[i]));
      assert lines[1..] == seq(|pieces[1..]|, i requires 0 <= i < |pieces[1..]| => Plain(pieces[1..][i]));
    }
  }

  function Plain(msg: string): LogLine {
    LogLine(msg, "")
  }

  function WrittenLines(b: string): seq<LogLine> {
    var pieces := Split(TrimSpace(b));
    seq(|pieces|, i requires 0 <= i < |pieces| => Plain(pieces[i]))
  }

  /** The lines written are the trimmed text, cut at its newlines. */
  lemma {:induction false} WrittenJoined(b: string)
    ensures Joined(WrittenLines(b)) == TrimSpace(b)
  {
    SplitJoin(TrimSpace(b));
    JoinedPlain(Split(TrimSpace(b)));
  }

  function EventLine(e: Event): LogLine {
    LogLine(e.name + " (" + e.apiVersion + e.kind + "): " + e.message, "event")
  }

  /** The logger, its topic being the list of batches given to it. */
  class PubsubLogger {
    var lines: seq<LogLine>
    var topic: seq<Batch>

    constructor ()
      ensures lines == [] && topic == []
    {
      lines, topic := [], [];
    }

    method Write(b: string) returns (n: nat)
      modifies this`lines
      ensures lines == old(lines) + WrittenLines(b)
      ensures n == |b|
    {
      var pieces := Split(TrimSpace(b));
      for i := 0 to |pieces|
        invariant lines == old(lines) + WrittenLines(b)[..i]
      {
        lines := lines + [Plain(pieces[i])];
      }
      n := |b|;
    }

    method AddEvent(e: Event)
      modifies this`lines
      ensures lines == old(lines) + [EventLine(e)]
      ensures EventLine(e).kind == "event" &&
              EventLine(e).msg == e.name + " (" + e.apiVersion + e.kind + "): " + e.message
    {
      var b := e.name;
      b := b + " (";
      b := b + e.apiVersion;
      b := b + e.kind;
      b := b + "): ";
      b := b + e.message;
      lines := lines + [LogLine(b, "event")];
    }

    /** `ok`: the lines can be encoded and the topic accepts them. The buffer is empty
        either way, so a batch whose publish fails is gone. */
    method Publish(ok: bool) returns (err: bool)
      modifies this
      ensures lines == []
      ensures topic == if old(lines) == [] || !ok then old(topic) else old(topic) + [old(lines)]
      ensures err <==> old(lines) != [] && !ok
    {
      var taken := lines;
      lines := [];
      if |taken| == 0 {
        return false;
      }
      if !ok {
        return true;
      }
      topic := topic + [taken];
      return false;
    }
  }

  // ----- Interleavings -----

  /** A thread in Publish has swapped the lines out before it gives them to the topic. It
      then holds batch number `at` of those taken. */
  datatype Runner = Waiting | RunnerHolds(at: nat, last: bool) | Stopped

  datatype Closer = NotCalled | Signalled | CloserHolds(at: nat) | Returned

  /** A batch given to the topic, and whether the topic took it. */
  datatype Attempt = Attempt(at: nat, ok: bool)

  /** `written` is everything ever appended, `taken` the batches as they were swapped out,
      `attempts` their publishes in order; `mark` is how much had been written when Close
      was called. */
  datatype State = State(written: seq<LogLine>, lines: seq<LogLine>, taken: seq<Batch>, attempts: seq<Attempt>,
                         runner: Runner, closer: Closer, mark: nat)

  datatype Step =
    | Append(more: seq<LogLine>) // Write or AddEvent, under the lock
    | Tick                       // Run: the ticker fires, the lines are swapped out
    | SeeClose                   // Run: the close channel is closed, a last swap
    | Cancel                     // Run: the context is done
    | RunnerPublish(ok: bool)    // Run: the batch goes to the topic, or its error is logged
    | Close                      // Close closes the channel
    | CloseSwap                  // and swaps the lines out
    | CloserPublish(ok: bool)    // and publishes them itself, or returns the error

  predicate Enabled(s: State, step: Step) {
    match step
    case Append(_) => true
    case Tick => s.runner == Waiting
    case SeeClose => s.runner == Waiting && s.closer != NotCalled
    case Cancel => s.runner == Waiting
    case RunnerPublish(_) => s.runner.RunnerHolds?
    case Close => s.closer == NotCalled
    case CloseSwap => s.closer == Signalled
    case CloserPublish(_) => s.closer.CloserHolds?
  }

  function Swapped(s: State): State {
    if s.lines == [] then s else s.(lines := [], taken := s.taken + [s.lines])
  }

  function Apply(s: State, step: Step): State
    requires Enabled(s, step)
  {
    match step
    case Append(more) => s.(written := s.written + more, lines := s.lines + more)
    case Tick => if s.lines == [] then s else Swapped(s).(runner := RunnerHolds(|s.taken|, false))
    case SeeClose => Swapped(s).(runner := if s.lines == [] then Stopped else RunnerHolds(|s.taken|, true))
    case Cancel => s.(runner := Stopped)
    case RunnerPublish(ok) =>
      s.(attempts := s.attempts + [Attempt(s.runner.at, ok)], runner := if s.runner.last then Stopped else Waiting)
    case Close => s.(closer := Signalled, mark := |s.written|)
    case CloseSwap => Swapped(s).(closer := if s.lines == [] then Returned else CloserHolds(|s.taken|))
    case CloserPublish(ok) => s.(attempts := s.attempts + [Attempt(s.closer.at, ok)], closer := Returned)
  }

  const START := State([], [], [], [], Waiting, NotCalled, 0)

  function Concat(batches: seq<Batch>): seq<LogLine> {
    if batches == [] then [] else Concat(batches[..|batches| - 1]) + batches[|batches| - 1]
  }

  /** The batches at the topic, by number, in the order of their arrival. */
  function Topic(attempts: seq<Attempt>): seq<nat> {
    if attempts == [] then []
    else
      var a := attempts[|attempts| - 1];
      Topic(attempts[..|attempts| - 1]) + if a.ok then [a.at] else []
  }

  /** The batches whose publish failed. */
  function Dropped(attempts: seq<Attempt>): seq<nat> {
    if attempts == [] then []
    else
      var a := attempts[|attempts| - 1];
      Dropped(attempts[..|attempts| - 1]) + if a.ok then [] else [a.at]
  }

  /** The batches in the hands of a thread. */
  function InHands(s: State): multiset<nat> {
    (if s.runner.RunnerHolds? then multiset{s.runner.at} else multiset{})
    + (if s.closer.CloserHolds? then multiset{s.closer.at} else multiset{})
  }

  function UpTo(n: nat): seq<nat> {
    seq(n, i requires 0 <= i < n => i)
  }

  /** Every batch taken is in one place: in one thread's hands, at the topic, or dropped. */
  ghost predicate EachInOnePlace(s: State) {
    multiset(UpTo(|s.taken|)) == multiset(Topic(s.attempts)) + multiset(Dropped(s.attempts)) + InHands(s)
  }

  predicate AfterSwap(s: State) {
    s.closer == Returned || s.closer.CloserHolds?
  }

  ghost predicate LinesKept(s: State) {
    && s.written == Concat(s.taken) + s.lines
    && [] !in s.taken
    && (s.closer != NotCalled ==> s.mark <= |s.written|)
    && (AfterSwap(s) ==> s.mark <= |Concat(s.taken)|)
  }

  ghost predicate Inv(s: State) {
    LinesKept(s) && EachInOnePlace(s)
  }

  lemma {:induction false} ConcatAppended(batches: seq<Batch>, b: Batch)
    ensures Concat(batches + [b]) == Concat(batches) + b
  {
    assert (batches + [b])[..|batches|] == batches;
  }

  lemma {:induction false} AttemptAppended(attempts: seq<Attempt>, a: Attempt)
    ensures Topic(attempts + [a]) == Topic(attempts) + if a.ok then [a.at] else []
    ensures Dropped(attempts + [a]) == Dropped(attempts) + if a.ok then [] else [a.at]
  {
    assert (attempts + [a])[..|attempts|] == attempts;
  }

  lemma {:induction false} UpToNext(n: nat)
    ensures UpTo(n + 1) == UpTo(n) + [n]
  {}

  lemma {:induction false} UpToOnce(n: nat, i: nat)
    ensures multiset(UpTo(n))[i] == if i < n then 1 else 0
  {
    if n > 0 {
      UpToOnce(n - 1, i);
      UpToNext(n - 1);
    }
  }

  /** The batch a swap takes, if there are lines. */
  function NewBatch(s: State): multiset<nat> {
    if s.lines == [] then multiset{} else multiset{|s.taken|}
  }

  lemma {:induction false} SwapKeeps(s: State)
    requires LinesKept(s)
    ensures var v := Swapped(s);
            && v.written == Concat(v.taken) + v.lines && v.lines == [] && [] !in v.taken
            && |Concat(s.taken)| <= |Concat(v.taken)|
            && multiset(UpTo(|v.taken|)) ==
                 multiset(UpTo(|s.taken|)) + NewBatch(s)
  {
    ConcatAppended(s.taken, s.lines);
    UpToNext(|s.taken|);
  }

  predicate IsSwap(step: Step) {
    step.Tick? || step.SeeClose? || step.CloseSwap?
  }

  predicate IsPublish(step: Step) {
    step.RunnerPublish? || step.CloserPublish?
  }

  lemma {:induction false} SwapKeepsLines(s: State, step: Step)
    requires LinesKept(s) && Enabled(s, step) && IsSwap(step)
    ensures LinesKept(Apply(s, step))
  {
    SwapKeeps(s);
    assert Concat(Swapped(s).taken) + [] == Concat(Swapped(s).taken);
  }

  lemma {:induction false} SwapFillsHands(s: State, step: Step)
    requires Enabled(s, step) && IsSwap(step)
    ensures InHands(Apply(s, step)) == InHands(s) + NewBatch(s)
    ensures Apply(s, step).taken == Swapped(s).taken && Apply(s, step).attempts == s.attempts
  {}

  lemma {:induction false} SwapKeepsPlaces(s: State, step: Step)
    requires Inv(s) && Enabled(s, step) && IsSwap(step)
    ensures EachInOnePlace(Apply(s, step))
  {
    SwapKeeps(s);
    SwapFillsHands(s, step);
  }

  /** The batch a publishing thread holds. */
  function Published(s: State, step: Step): nat
    requires Enabled(s, step) && IsPublish(step)
  {
    if step.RunnerPublish? then s.runner.at else s.closer.at
  }

  lemma {:induction false} PublishEmptiesHands(s: State, step: Step)
    requires Enabled(s, step) && IsPublish(step)
    ensures var at := Published(s, step);
            && InHands(s) == InHands(Apply(s, step)) + multiset{at}
            && Apply(s, step).attempts == s.attempts + [Attempt(at, step.ok)] && Apply(s, step).taken == s.taken
  {}

  lemma {:induction false} PublishKeepsPlaces(s: State, step: Step)
    requires EachInOnePlace(s) && Enabled(s, step) && IsPublish(step)
    ensures EachInOnePlace(Apply(s, step))
  {
    AttemptAppended(s.attempts, Attempt(Published(s, step), step.ok));
    PublishEmptiesHands(s, step);
  }

  lemma {:induction false} AppendKeeps(s: State, more: seq<LogLine>)
    requires Inv(s)
    ensures Inv(Apply(s, Append(more)))
  {
    assert Concat(s.taken) + (s.lines + more) == (Concat(s.taken) + s.lines) + more;
    OtherStepsKeepHands(s, Append(more));
  }

  lemma {:induction false} CloseKeeps(s: State, step: Step)
    requires Inv(s) && Enabled(s, step) && (step == Close || step == Cancel)
    ensures Inv(Apply(s, step))
  {
    OtherStepsKeepHands(s, step);
  }

  lemma {:induction false} PublishKeepsLines(s: State, step: Step)
    requires LinesKept(s) && Enabled(s, step) && IsPublish(step)
    ensures LinesKept(Apply(s, step))
  {}

  lemma {:induction false} StepKeeps(s: State, step: Step)
    requires Inv(s) && Enabled(s, step)
    ensures Inv(Apply(s, step))
  {
    if IsSwap(step) {
      SwapKeepsLines(s, step);
      SwapKeepsPlaces(s, step);
    } else if IsPublish(step) {
      PublishKeepsLines(s, step);
      PublishKeepsPlaces(s, step);
    } else if step.Append? {
      AppendKeeps(s, step.more);
    } else {
      CloseKeeps(s, step);
    }
  }

  lemma {:induction false} OtherStepsKeepHands(s: State, step: Step)
    requires Enabled(s, step) && !IsSwap(step) && !IsPublish(step)
    ensures InHands(Apply(s, step)) == InHands(s)
  {}

  // ----- Main results -----

  ghost predicate IsRun(states: seq<State>, steps: seq<Step>) {
    && |states| == |steps| + 1 && states[0] == START
    && forall n {:trigger steps[n]} :: 0 <= n < |steps| ==> Taken(states[n], steps[n], states[n + 1])
  }

  predicate Taken(s: State, step: Step, v: State) {
    Enabled(s, step) && v == Apply(s, step)
  }

  lemma {:induction false} InvInEveryRun(states: seq<State>, steps: seq<Step>, n: nat)
    requires IsRun(states, steps) && n <= |steps|
    ensures Inv(states[n])
  {
    if n > 0 {
      InvInEveryRun(states, steps, n - 1);
      assert Taken(states[n - 1], steps[n - 1], states[n]);
      StepKeeps(states[n - 1], steps[n - 1]);
    }
  }

  /** How often batch `i` is in the hands of a thread. */
  function Holding(s: State, i: nat): nat {
    InHands(s)[i]
  }

  /** Every line written is in one batch or still buffered, in the order of writing; each
      batch taken is once in one thread's hands, at the topic, or dropped, and no other
      batch is anywhere. */
  lemma {:induction false} NothingLost(states: seq<State>, steps: seq<Step>, n: nat, i: nat)
    requires IsRun(states, steps) && n <= |steps|
    ensures states[n].written == Concat(states[n].taken) + states[n].lines
    ensures var s := states[n];
            multiset(Topic(s.attempts))[i] + multiset(Dropped(s.attempts))[i] + Holding(s, i) ==
            if i < |s.taken| then 1 else 0
  {
    InvInEveryRun(states, steps, n);
    OncePlaced(states[n], i);
  }

  lemma {:induction false} OncePlaced(s: State, i: nat)
    requires EachInOnePlace(s)
    ensures multiset(Topic(s.attempts))[i] + multiset(Dropped(s.attempts))[i] + Holding(s, i) ==
            if i < |s.taken| then 1 else 0
  {
    UpToOnce(|s.taken|, i);
  }

  /** A batch is at the topic iff a publish of it succeeded, and dropped iff one failed. */
  lemma {:induction false} WhereAttemptsGo(attempts: seq<Attempt>, i: nat)
    ensures i in Topic(attempts) <==> Attempt(i, true) in attempts
    ensures i in Dropped(attempts) <==> Attempt(i, false) in attempts
  {
    if attempts != [] {
      var k := |attempts| - 1;
      WhereAttemptsGo(attempts[..k], i);
      assert attempts == attempts[..k] + [attempts[k]];
    }
  }

  /** A batch that left its thread's hands is at the topic iff its publish succeeded, and
      otherwise it is nowhere. */
  lemma {:induction false} AtTheTopicIffPublished(states: seq<State>, steps: seq<Step>, n: nat, i: nat)
    requires IsRun(states, steps) && n <= |steps| && i < |states[n].taken| && Holding(states[n], i) == 0
    ensures Attempt(i, true) in states[n].attempts <==> Attempt(i, false) !in states[n].attempts
    ensures i in Topic(states[n].attempts) <==> Attempt(i, false) !in states[n].attempts
  {
    NothingLost(states, steps, n, i);
    WhereAttemptsGo(states[n].attempts, i);
  }

  ghost predicate AllAtTopic(s: State) {
    forall i: nat | i < |s.taken| :: i in Topic(s.attempts)
  }

  /** When Close returns, every line written before Close was called has left the buffer;
      all that left it is at the topic iff the runner holds no batch and no publish failed. */
  lemma {:induction false} CloseFlushes(states: seq<State>, steps: seq<Step>, m: nat, n: nat)
    requires IsRun(states, steps) && m < n <= |steps|
    requires steps[m] == Close && states[n].closer == Returned
    ensures states[m].written <= Concat(states[n].taken)
    ensures AllAtTopic(states[n]) <==> !states[n].runner.RunnerHolds? && Dropped(states[n].attempts) == []
  {
    InvInEveryRun(states, steps, n);
    MarkedAtClose(states, steps, m, n);
    var s := states[n];
    assert s.written[..|states[m].written|] == states[m].written;
    assert s.written[..|Concat(s.taken)|] == Concat(s.taken);
    AllAtTopicExactly(s);
  }

  lemma {:induction false} AllAtTopicExactly(s: State)
    requires EachInOnePlace(s) && !s.closer.CloserHolds?
    ensures AllAtTopic(s) <==> !s.runner.RunnerHolds? && Dropped(s.attempts) == []
  {
    forall i: nat ensures Elsewhere(s, i) <==> i < |s.taken| && i !in Topic(s.attempts) {
      ElsewhereExactly(s, i);
    }
    if s.runner.RunnerHolds? {
      assert Elsewhere(s, s.runner.at);
    } else if Dropped(s.attempts) != [] {
      assert Elsewhere(s, Dropped(s.attempts)[0]);
    }
  }

  /** Batch `i` has been taken, and the topic does not have it. */
  predicate Elsewhere(s: State, i: nat) {
    Holding(s, i) > 0 || i in Dropped(s.attempts)
  }

  lemma {:induction false} ElsewhereExactly(s: State, i: nat)
    requires EachInOnePlace(s)
    ensures Elsewhere(s, i) <==> i < |s.taken| && i !in Topic(s.attempts)
  {
    OncePlaced(s, i);
    assert i in Topic(s.attempts) <==> multiset(Topic(s.attempts))[i] > 0;
    assert i in Dropped(s.attempts) <==> multiset(Dropped(s.attempts))[i] > 0;
  }

  lemma {:induction false} MarkedAtClose(states: seq<State>, steps: seq<Step>, m: nat, n: nat)
    requires IsRun(states, steps) && m < n <= |steps| && steps[m] == Close
    ensures states[n].mark == |states[m].written| && states[n].closer != NotCalled
    ensures states[m].written <= states[n].written
  {
    assert Taken(states[n - 1], steps[n - 1], states[n]);
    if m < n - 1 {
      MarkedAtClose(states, steps, m, n - 1);
    }
  }

  // ----- The order of batches at the topic -----

  /** The batches as they were given to the topic, accepted or not. */
  function Tried(attempts: seq<Attempt>): seq<nat> {
    seq(|attempts|, k requires 0 <= k < |attempts| => attempts[k].at)
  }

  /** Step `k` publishes a batch while the other thread still holds the older batch `i`. */
  predicate Overtakes(s: State, step: Step, i: nat) {
    Enabled(s, step) && IsPublish(step) && Holding(s, i) > 0 && i < Published(s, step)
  }

  ghost predicate NoneOvertaken(states: seq<State>, steps: seq<Step>, n: nat)
    requires IsRun(states, steps) && n <= |steps|
  {
    forall k: nat | k < n :: OvertakesNone(states[k], steps[k])
  }

  ghost predicate OvertakesNone(s: State, step: Step) {
    forall i: nat | i < |s.taken| :: !Overtakes(s, step, i)
  }

  lemma {:induction false} TriedAppended(attempts: seq<Attempt>, a: Attempt)
    ensures Tried(attempts + [a]) == Tried(attempts) + [a.at]
  {}

  lemma {:induction false} TriedIsTopicOrDropped(attempts: seq<Attempt>)
    ensures multiset(Tried(attempts)) == multiset(Topic(attempts)) + multiset(Dropped(attempts))
  {
    if attempts != [] {
      var k := |attempts| - 1;
      TriedIsTopicOrDropped(attempts[..k]);
      assert attempts == attempts[..k] + [attempts[k]];
      TriedAppended(attempts[..k], attempts[k]);
    }
  }

  /** When the batches tried so far are the oldest ones in order, the oldest batch held is
      the next in line. */
  lemma {:induction false} OldestIsNext(s: State, step: Step)
    requires Inv(s) && Enabled(s, step) && IsPublish(step)
    requires Tried(s.attempts) == UpTo(|s.attempts|)
    ensures Published(s, step) == |s.attempts| <==> OvertakesNone(s, step)
  {
    var t, p := |s.attempts|, Published(s, step);
    TriedIsTopicOrDropped(s.attempts);
    forall i: nat ensures (Holding(s, i) > 0 <==> t <= i < |s.taken|) {
      UpToOnce(|s.taken|, i);
      UpToOnce(t, i);
      assert Holding(s, i) + multiset(Tried(s.attempts))[i] == multiset(UpTo(|s.taken|))[i];
    }
    assert Holding(s, p) > 0;
    if p > t {
      assert Overtakes(s, step, t);
    }
  }

  lemma {:induction false} TriedStep(s: State, step: Step)
    requires Inv(s) && Enabled(s, step) && InTakenOrder(s)
    ensures InTakenOrder(Apply(s, step)) <==> OvertakesNone(s, step)
  {
    if IsPublish(step) {
      var p := Published(s, step);
      OldestIsNext(s, step);
      TriedAppended(s.attempts, Attempt(p, step.ok));
      UpToNext(|s.attempts|);
      if p != |s.attempts| {
        assert (Tried(s.attempts) + [p])[|s.attempts|] != UpTo(|s.attempts| + 1)[|s.attempts|];
      }
    } else {
      assert Apply(s, step).attempts == s.attempts;
    }
  }

  /** The batches reach the topic in the order in which they were taken, none skipped, iff
      no publish before overtook a batch that the other thread held. */
  lemma {:induction false} OrderExactly(states: seq<State>, steps: seq<Step>, n: nat)
    requires IsRun(states, steps) && n <= |steps|
    ensures AlwaysInOrder(states, n) <==> NoneOvertaken(states, steps, n)
  {
    if n > 0 {
      OrderExactly(states, steps, n - 1);
      InvInEveryRun(states, steps, n - 1);
      OneMoreStep(states, steps, n - 1);
      assert Taken(states[n - 1], steps[n - 1], states[n]);
      if InTakenOrder(states[n - 1]) {
        TriedStep(states[n - 1], steps[n - 1]);
      }
      assert AlwaysInOrder(states, n - 1) ==> InTakenOrder(states[n - 1]);
    }
  }

  ghost predicate AlwaysInOrder(states: seq<State>, n: nat)
    requires n < |states|
  {
    forall m: nat | m <= n :: InTakenOrder(states[m])
  }

  lemma {:induction false} OneMoreStep(states: seq<State>, steps: seq<Step>, n: nat)
    requires IsRun(states, steps) && n < |steps|
    ensures AlwaysInOrder(states, n + 1) <==> AlwaysInOrder(states, n) && InTakenOrder(states[n + 1])
    ensures NoneOvertaken(states, steps, n + 1) <==>
            NoneOvertaken(states, steps, n) && OvertakesNone(states[n], steps[n])
  {}

  predicate InTakenOrder(s: State) {
    Tried(s.attempts) == UpTo(|s.attempts|)
  }

  /** Without drops and overtaking the lines reach the topic in the order of writing. */
  lemma {:induction false} LinesInOrder(states: seq<State>, steps: seq<Step>, n: nat)
    requires IsRun(states, steps) && n <= |steps|
    requires NoneOvertaken(states, steps, n) && Dropped(states[n].attempts) == []
    ensures var s := states[n];
            && Topic(s.attempts) == UpTo(|s.attempts|) && |s.attempts| <= |s.taken|
            && Concat(s.taken[..|s.attempts|]) <= s.written
  {
    var s := states[n];
    OrderExactly(states, steps, n);
    assert InTakenOrder(states[n]);
    NoDrops(s.attempts);
    InvInEveryRun(states, steps, n);
    if |s.attempts| > 0 {
      NothingLost(states, steps, n, |s.attempts| - 1);
      assert Topic(s.attempts)[|s.attempts| - 1] == |s.attempts| - 1;
    }
    ConcatOfPrefix(s.taken, |s.attempts|);
    assert s.written[..|Concat(s.taken)|] == Concat(s.taken);
  }

  lemma {:induction false} NoDrops(attempts: seq<Attempt>)
    requires Dropped(attempts) == []
    ensures Topic(attempts) == Tried(attempts)
  {
    if attempts != [] {
      var k := |attempts| - 1;
      assert attempts == attempts[..k] + [attempts[k]];
      AttemptAppended(attempts[..k], attempts[k]);
      NoDrops(attempts[..k]);
      TriedAppended(attempts[..k], attempts[k]);
    }
  }

  lemma {:induction false} ConcatOfPrefix(batches: seq<Batch>, k: nat)
    requires k <= |batches|
    ensures Concat(batches[..k]) <= Concat(batches)
  {
    if k < |batches| {
      ConcatOfPrefix(batches[..|batches| - 1], k);
      assert batches[..|batches| - 1][..k] == batches[..k];
    } else {
      assert batches[..k] == batches;
    }
  }

  // ----- The order at the topic when publishes fail -----

  predicate Increasing(which: seq<nat>) {
    forall a, b :: 0 <= a < b < |which| ==> which[a] < which[b]
  }

  /** A newer batch reaches the topic while the other thread holds batch `i`. */
  predicate OvertakesAtTopic(s: State, step: Step, i: nat) {
    IsPublish(step) && step.ok && Overtakes(s, step, i)
  }

  ghost predicate Overtaken(states: seq<State>, steps: seq<Step>, n: nat, i: nat)
    requires IsRun(states, steps) && n <= |steps|
  {
    exists k: nat :: k < n && OvertakesAtTopic(states[k], steps[k], i)
  }

  lemma {:induction false} IncreasingAppended(which: seq<nat>, p: nat)
    ensures Increasing(which + [p]) <==> Increasing(which) && forall q | q in which :: q < p
  {
    var more := which + [p];
    forall a | 0 <= a < |which| ensures more[a] == which[a] && more[a] in which {
    }
    if Increasing(more) {
      assert more[|which|] == p;
    }
  }

  lemma {:induction false} TopicOfStep(s: State, step: Step)
    requires Enabled(s, step)
    ensures Topic(Apply(s, step).attempts) ==
            Topic(s.attempts) + if IsPublish(step) && step.ok then [Published(s, step)] else []
  {
    if IsPublish(step) {
      AttemptAppended(s.attempts, Attempt(Published(s, step), step.ok));
    }
  }

  lemma {:induction false} TopicNext(states: seq<State>, steps: seq<Step>, n: nat)
    requires IsRun(states, steps) && n < |steps|
    ensures Enabled(states[n], steps[n]) && states[n + 1] == Apply(states[n], steps[n])
    ensures Topic(states[n + 1].attempts) ==
            Topic(states[n].attempts) +
            if IsPublish(steps[n]) && steps[n].ok then [Published(states[n], steps[n])] else []
  {
    assert Taken(states[n], steps[n], states[n + 1]);
    TopicOfStep(states[n], steps[n]);
  }

  lemma {:induction false} TopicGrows(states: seq<State>, steps: seq<Step>, k: nat, n: nat)
    requires IsRun(states, steps) && k <= n <= |steps|
    ensures Topic(states[k].attempts) <= Topic(states[n].attempts)
  {
    if k < n {
      TopicGrows(states, steps, k, n - 1);
      TopicNext(states, steps, n - 1);
    }
  }

  lemma {:induction false} StartedHolding(s: State, step: Step, p: nat)
    requires Enabled(s, step) && Holding(Apply(s, step), p) > 0
    ensures Holding(s, p) > 0 || (p == |s.taken| && !IsPublish(step))
  {
    var before, now := InHands(s), InHands(Apply(s, step));
    if IsSwap(step) {
      SwapFillsHands(s, step);
      NewBatchIsNumbered(s, p);
      assert now[p] == before[p] + NewBatch(s)[p];
    } else if IsPublish(step) {
      PublishEmptiesHands(s, step);
      assert now[p] <= before[p];
    } else {
      OtherStepsKeepHands(s, step);
    }
  }

  lemma {:induction false} NewBatchIsNumbered(s: State, p: nat)
    ensures NewBatch(s)[p] > 0 ==> p == |s.taken|
  {}

  /** A batch still held while a newer one is at the topic was overtaken. */
  lemma {:induction false} HeldWasOvertaken(states: seq<State>, steps: seq<Step>, n: nat, p: nat, q: nat)
    requires IsRun(states, steps) && n <= |steps|
    requires Holding(states[n], p) > 0 && p < q && q in Topic(states[n].attempts)
    ensures Overtaken(states, steps, n, p)
  {
    if n > 0 {
      HadArrived(states, steps, n - 1, q);
      StillHolding(states, steps, n - 1, p, q);
      if q in Topic(states[n - 1].attempts) {
        HeldWasOvertaken(states, steps, n - 1, p, q);
      } else {
        assert OvertakesAtTopic(states[n - 1], steps[n - 1], p);
      }
    }
  }

  lemma {:induction false} HadArrived(states: seq<State>, steps: seq<Step>, n: nat, q: nat)
    requires IsRun(states, steps) && n < |steps| && q in Topic(states[n + 1].attempts)
    ensures Enabled(states[n], steps[n])
    ensures q in Topic(states[n].attempts) ||
            (IsPublish(steps[n]) && steps[n].ok && q == Published(states[n], steps[n]))
  {
    TopicNext(states, steps, n);
  }

  /** A batch held with a newer one taken before was held before. */
  lemma {:induction false} StillHolding(states: seq<State>, steps: seq<Step>, n: nat, p: nat, q: nat)
    requires IsRun(states, steps) && n < |steps| && p < q
    requires Holding(states[n + 1], p) > 0 && (q in Topic(states[n].attempts) || IsPublish(steps[n]))
    ensures Holding(states[n], p) > 0
  {
    assert Taken(states[n], steps[n], states[n + 1]);
    StartedHolding(states[n], steps[n], p);
    NothingLost(states, steps, n, q);
  }

  lemma {:induction false} NewerIsThere(states: seq<State>, steps: seq<Step>, n: nat, p: nat)
    requires IsRun(states, steps) && n <= |steps| && Overtaken(states, steps, n, p)
    ensures exists q :: q in Topic(states[n].attempts) && p < q
  {
    var k: nat :| k < n && OvertakesAtTopic(states[k], steps[k], p);
    ArrivesForGood(states, steps, k, n);
    assert p < Published(states[k], steps[k]);
  }

  lemma {:induction false} ArrivesForGood(states: seq<State>, steps: seq<Step>, k: nat, n: nat)
    requires IsRun(states, steps) && k < n <= |steps|
    requires Enabled(states[k], steps[k]) && IsPublish(steps[k]) && steps[k].ok
    ensures Published(states[k], steps[k]) in Topic(states[n].attempts)
  {
    TopicNext(states, steps, k);
    TopicGrows(states, steps, k + 1, n);
    assert Topic(states[n].attempts)[|Topic(states[k].attempts)|] == Published(states[k], steps[k]);
  }

  ghost predicate OvertakenArrives(states: seq<State>, steps: seq<Step>, n: nat)
    requires IsRun(states, steps) && n <= |steps|
  {
    exists i: nat :: i in Topic(states[n].attempts) && Overtaken(states, steps, n, i)
  }

  /** The batches at the topic are in the order of taking, with or without failures, iff
      none of them was overtaken there. */
  lemma {:induction false} TopicOrderExactly(states: seq<State>, steps: seq<Step>, n: nat)
    requires IsRun(states, steps) && n <= |steps|
    ensures Increasing(Topic(states[n].attempts)) <==> !OvertakenArrives(states, steps, n)
  {
    if n > 0 {
      var s, step := states[n - 1], steps[n - 1];
      assert Taken(s, step, states[n]);
      TopicOrderExactly(states, steps, n - 1);
      TopicOfStep(s, step);
      if IsPublish(step) && step.ok {
        ArrivalInOrder(states, steps, n - 1);
      } else {
        NothingArrives(states, steps, n - 1);
      }
    }
  }

  lemma {:induction false} OvertakenNext(states: seq<State>, steps: seq<Step>, n: nat, i: nat)
    requires IsRun(states, steps) && n < |steps|
    ensures Overtaken(states, steps, n + 1, i) <==>
            Overtaken(states, steps, n, i) || OvertakesAtTopic(states[n], steps[n], i)
  {}

  lemma {:induction false} NothingArrives(states: seq<State>, steps: seq<Step>, n: nat)
    requires IsRun(states, steps) && n < |steps|
    requires !(IsPublish(steps[n]) && steps[n].ok)
    requires Topic(states[n + 1].attempts) == Topic(states[n].attempts)
    ensures OvertakenArrives(states, steps, n + 1) <==> OvertakenArrives(states, steps, n)
  {
    forall i: nat ensures Overtaken(states, steps, n + 1, i) <==> Overtaken(states, steps, n, i) {
      OvertakenNext(states, steps, n, i);
    }
  }

  lemma {:induction false} ArrivalInOrder(states: seq<State>, steps: seq<Step>, n: nat)
    requires IsRun(states, steps) && n < |steps|
    requires IsPublish(steps[n]) && steps[n].ok && Enabled(states[n], steps[n])
    requires Topic(states[n + 1].attempts) == Topic(states[n].attempts) + [Published(states[n], steps[n])]
    requires Increasing(Topic(states[n].attempts)) <==> !OvertakenArrives(states, steps, n)
    ensures Increasing(Topic(states[n + 1].attempts)) <==> !OvertakenArrives(states, steps, n + 1)
  {
    var topic, p := Topic(states[n].attempts), Published(states[n], steps[n]);
    IncreasingAppended(topic, p);
    NewestUnlessOvertaken(states, steps, n);
    ArrivesNext(states, steps, n);
  }

  lemma {:induction false} ArrivesNext(states: seq<State>, steps: seq<Step>, n: nat)
    requires IsRun(states, steps) && n < |steps|
    requires IsPublish(steps[n]) && steps[n].ok && Enabled(states[n], steps[n])
    requires Topic(states[n + 1].attempts) == Topic(states[n].attempts) + [Published(states[n], steps[n])]
    ensures OvertakenArrives(states, steps, n + 1) <==>
            OvertakenArrives(states, steps, n) || Overtaken(states, steps, n, Published(states[n], steps[n]))
  {
    var topic, p := Topic(states[n].attempts), Published(states[n], steps[n]);
    forall i: nat | i in topic || i == p
      ensures Overtaken(states, steps, n + 1, i) <==> Overtaken(states, steps, n, i)
    {
      OvertakenNext(states, steps, n, i);
      NothingLost(states, steps, n, i);
    }
    forall i: nat ensures i in Topic(states[n + 1].attempts) <==> i in topic || i == p {
    }
  }

  /** What arrives is newer than all that is there unless it was overtaken. */
  lemma {:induction false} NewestUnlessOvertaken(states: seq<State>, steps: seq<Step>, n: nat)
    requires IsRun(states, steps) && n < |steps|
    requires IsPublish(steps[n]) && Enabled(states[n], steps[n])
    ensures var p := Published(states[n], steps[n]);
            Overtaken(states, steps, n, p) <==> !forall q | q in Topic(states[n].attempts) :: q < p
  {
    var topic, p := Topic(states[n].attempts), Published(states[n], steps[n]);
    NothingLost(states, steps, n, p);
    if q: nat :| q in topic && q >= p {
      HeldWasOvertaken(states, steps, n, p, q);
    }
    if Overtaken(states, steps, n, p) {
      NewerIsThere(states, steps, n, p);
    }
  }

  const A := LogLine("a", "")
  const B := LogLine("b", "")

  function OvertakingSteps(ok: bool): seq<Step> {
    [Append([A]), Tick, Append([B]), Close, CloseSwap, CloserPublish(true), RunnerPublish(ok)]
  }

  function OvertakingStates(ok: bool): seq<State> {
    [START,
     State([A], [A], [], [], Waiting, NotCalled, 0),
     State([A], [], [[A]], [], RunnerHolds(0, false), NotCalled, 0),
     State([A, B], [B], [[A]], [], RunnerHolds(0, false), NotCalled, 0),
     State([A, B], [B], [[A]], [], RunnerHolds(0, false), Signalled, 2),
     State([A, B], [], [[A], [B]], [], RunnerHolds(0, false), CloserHolds(1), 2),
     State([A, B], [], [[A], [B]], [Attempt(1, true)], RunnerHolds(0, false), Returned, 2),
     State([A, B], [], [[A], [B]], [Attempt(1, true), Attempt(0, ok)], Waiting, Returned, 2)]
  }

  /** Close may publish a later batch first, and return before an earlier line is at the
      topic; the earlier batch then arrives second, or not at all. */
  lemma {:induction false} CloseCanOvertake(ok: bool)
    ensures IsRun(OvertakingStates(ok), OvertakingSteps(ok))
    ensures var s := OvertakingStates(ok)[6]; s.closer == Returned && s.taken == [[A], [B]] && Topic(s.attempts) == [1]
    ensures Topic(OvertakingStates(ok)[7].attempts) == if ok then [1, 0] else [1]
  {
    forall n | 0 <= n < 7 ensures Taken(OvertakingStates(ok)[n], OvertakingSteps(ok)[n], OvertakingStates(ok)[n + 1]) {
      OvertakingTaken(ok, n);
    }
    OvertakingTopics(ok);
  }

  lemma {:induction false} OvertakingTaken(ok: bool, n: nat)
    requires n < 7
    ensures Taken(OvertakingStates(ok)[n], OvertakingSteps(ok)[n], OvertakingStates(ok)[n + 1])
  {
    if n == 0 {
      assert [] + [A] == [A];
    }
  }

  lemma {:induction false} OvertakingTopics(ok: bool)
    ensures Topic(OvertakingStates(ok)[6].attempts) == [1]
    ensures Topic(OvertakingStates(ok)[7].attempts) == if ok then [1, 0] else [1]
  {
    AttemptAppended([], Attempt(1, true));
    AttemptAppended([Attempt(1, true)], Attempt(0, ok));
    assert [] + [Attempt(1, true)] == [Attempt(1, true)];
    assert [Attempt(1, true)] + [Attempt(0, ok)] == OvertakingStates(ok)[7].attempts;
  }
}
