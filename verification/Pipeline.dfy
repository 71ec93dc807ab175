/**
  The conversion pipeline: one reader, any number of converters, one writer, joined by round-robin
  channels. Every goroutine's channel operation is one step; the channels to the writer are unbuffered,
  so a converter and the writer step together.
 */
module Pipeline {
  import opened Bytes

  type Message = seq<byte>

  /** An input message, labelled with what decoding and encoding it give. */
  datatype Input = Good(out: Message) | Bad

  datatype Config = Config(items: seq<Input>, threads: nat, buffer: nat, failOnConvertErrors: bool)

  // A goroutine that has returned tells whether with an error, its context's included; what a converter
  // had in hand when its context ended is `left`.
  datatype Reader = Reading | Sending | Closed(err: bool)
  datatype Converter = Idle | Holding(k: nat) | Exited(err: bool, left: seq<nat>)
  datatype Writer = Running | Finished | Failed

  /** `sent` messages have left the reader; `next` is the writer's counter `i`. */
  datatype State = State(
    reader: Reader, sent: nat,
    lanes: seq<seq<nat>>, converters: seq<Converter>,
    writer: Writer, next: nat, closedChans: nat, output: seq<Message>, errors: seq<nat>,
    cancelled: bool)

  datatype Step =
    | Read | ReadEof | ReadFail | ReadCancel
    | Send                       // into the buffer of the lane
    | Pass                       // straight to a waiting converter
    | Take(t: nat) | Exit(t: nat) | ConvertCancel(t: nat)
    | Write | WriteFail | SeeClosed | WriteCancel
    | Abort                      // the group cancels the context because a goroutine has returned an error
    | Cancel                     // the context is cancelled from outside

  function Init(c: Config): State {
    State(Reading, 0, seq(c.threads, _ => []), seq(c.threads, _ => Idle), Running, 0, 0, [], [], false)
  }

  predicate Shaped(c: Config, s: State) {
    0 < c.threads == |s.lanes| == |s.converters| && s.sent <= |c.items| && s.next <= |c.items|
    && (s.reader.Sending? ==> s.sent < |c.items|)
    && (forall t :: 0 <= t < |s.converters| && s.converters[t].Holding? ==> s.converters[t].k < |c.items|)
  }

  /** Some goroutine has returned an error, so `Process` does. */
  predicate LeftByError(s: State) {
    (s.reader.Closed? && s.reader.err) || s.writer.Failed? || exists v <- s.converters :: v.Exited? && v.err
  }

  predicate Enabled(c: Config, s: State, step: Step)
    requires Shaped(c, s)
  {
    var r, w := s.sent % c.threads, s.next % c.threads;
    match step
    case Read => s.reader.Reading? && s.sent < |c.items|
    case ReadEof => s.reader.Reading? && s.sent == |c.items|
    case ReadFail => s.reader.Reading?
    case ReadCancel => s.reader.Sending? && s.cancelled
    case Send => s.reader.Sending? && |s.lanes[r]| < c.buffer
    case Pass => s.reader.Sending? && s.lanes[r] == [] && s.converters[r].Idle?
    case Take(t) => t < c.threads && s.converters[t].Idle? && s.lanes[t] != [] && s.lanes[t][0] < |c.items|
    case Exit(t) => t < c.threads && s.converters[t].Idle? && s.lanes[t] == [] && s.reader.Closed?
    case ConvertCancel(t) => t < c.threads && !s.converters[t].Exited? && s.cancelled
    case Write => s.writer.Running? && s.converters[w].Holding? && s.next < |c.items|
    case WriteFail => s.writer.Running? && s.converters[w].Holding? && s.next < |c.items|
    case SeeClosed => s.writer.Running? && s.converters[w].Exited?
    case WriteCancel => s.writer.Running? && s.cancelled
    case Abort => !s.cancelled && LeftByError(s)
    case Cancel => !s.cancelled
  }

  function Apply(c: Config, s: State, step: Step): State
    requires Shaped(c, s) && Enabled(c, s, step)
  {
    var r, w := s.sent % c.threads, s.next % c.threads;
    match step
    case Read => s.(reader := Sending)
    case ReadEof => s.(reader := Closed(false))
    case ReadFail => s.(reader := Closed(true))
    case ReadCancel => s.(reader := Closed(true))
    case Send => s.(reader := Reading, sent := s.sent + 1, lanes := s.lanes[r := s.lanes[r] + [s.sent]])
    case Pass => s.(reader := Reading, sent := s.sent + 1, converters := s.converters[r := Holding(s.sent)])
    case Take(t) => s.(lanes := s.lanes[t := s.lanes[t][1..]], converters := s.converters[t := Holding(s.lanes[t][0])])
    case Exit(t) => s.(converters := s.converters[t := Exited(false, [])])
    case ConvertCancel(t) => s.(converters := s.converters[t := Exited(true, Held(s.converters[t]))])
    case Write =>
      var k := s.converters[w].k;
      var u := s.(converters := s.converters[w := Idle], next := s.next + 1);
      if c.items[k].Good? then u.(output := s.output + [c.items[k].out])
      else u.(errors := s.errors + [s.next], writer := if c.failOnConvertErrors then Failed else Running)
    case WriteFail => s.(converters := s.converters[w := Idle], next := s.next + 1, writer := Failed)
    case SeeClosed =>
      s.(closedChans := s.closedChans + 1, writer := if s.closedChans + 1 == c.threads then Finished else Running)
    case WriteCancel => s.(writer := Failed)
    case Abort => s.(cancelled := true)
    case Cancel => s.(cancelled := true)
  }

  // ----- The sequential meaning -----

  /** The converted messages, in input order; messages that fail to convert are left out. */
  function Sequential(items: seq<Input>): seq<Message> {
    if items == [] then []
    else
      var last := items[|items| - 1];
      Sequential(items[..|items| - 1]) + (if last.Good? then [last.out] else [])
  }

  /** The positions of the messages that fail to convert. */
  function Rejected(items: seq<Input>): seq<nat> {
    if items == [] then []
    else Rejected(items[..|items| - 1]) + (if items[|items| - 1].Bad? then [|items| - 1] else [])
  }

  lemma SequentialNext(items: seq<Input>, k: nat)
    requires k < |items|
    ensures Rejected(items[..k + 1]) == Rejected(items[..k]) + (if items[k].Bad? then [k] else [])
    ensures Sequential(items[..k + 1]) == Sequential(items[..k]) + (if items[k].Good? then [items[k].out] else [])
  {
    assert items[..k + 1][..k] == items[..k];
  }

  /** The positions lo..hi-1 that belong to lane t, in order. */
  function Lane(lo: nat, hi: nat, t: nat, n: nat): seq<nat>
    requires n > 0
    decreases hi
  {
    if lo >= hi then [] else Lane(lo, hi - 1, t, n) + (if (hi - 1) % n == t then [hi - 1] else [])
  }

  lemma {:induction false} LaneDropFirst(lo: nat, hi: nat, t: nat, n: nat)
    requires n > 0 && lo < hi
    ensures Lane(lo, hi, t, n) == (if lo % n == t then [lo] else []) + Lane(lo + 1, hi, t, n)
    decreases hi
  {
    var x := if lo % n == t then [lo] else [];
    var y := if (hi - 1) % n == t then [hi - 1] else [];
    if hi == lo + 1 {
      assert Lane(lo, lo, t, n) == [] && [] + x == x == x + [];
    } else {
      LaneDropFirst(lo, hi - 1, t, n);
      assert x + Lane(lo + 1, hi - 1, t, n) + y == x + (Lane(lo + 1, hi - 1, t, n) + y);
    }
  }

  lemma {:induction false} LaneBounds(lo: nat, hi: nat, t: nat, n: nat)
    requires n > 0
    ensures forall k <- Lane(lo, hi, t, n) :: lo <= k < hi
    decreases hi
  {
    if lo < hi {
      LaneBounds(lo, hi - 1, t, n);
    }
  }

  /** What a converter has taken and not passed on. */
  function Held(v: Converter): seq<nat> {
    match v
    case Idle => []
    case Holding(k) => [k]
    case Exited(_, left) => left
  }

  // ----- Invariants -----

  /**
    What lane t still holds, in its channel or with its converter, is exactly what lies between the writer's
    and the reader's counters. A converter returns nil only after the reader, with nothing left.
   */
  predicate LaneOk(c: Config, s: State, t: nat)
    requires Shaped(c, s) && t < c.threads
  {
    var v := s.converters[t];
    && Held(v) + s.lanes[t] == Lane(s.next, s.sent, t, c.threads)
    && (v.Exited? ==> if v.err then s.cancelled else s.reader.Closed? && v.left == [] && s.lanes[t] == [])
  }

  ghost predicate InvLanes(c: Config, s: State) {
    Shaped(c, s) && s.next <= s.sent && forall t :: 0 <= t < c.threads ==> LaneOk(c, s, t) && |s.lanes[t]| <= c.buffer
  }

  /** The output is the sequential conversion of the messages handled so far; a failed write costs the last one. */
  ghost predicate InvOutput(c: Config, s: State)
    requires Shaped(c, s)
  {
    (s.output == Sequential(c.items[..s.next]) && (s.writer.Failed? || s.errors == Rejected(c.items[..s.next])))
    || (s.writer.Failed? && s.next > 0 && s.output == Sequential(c.items[..s.next - 1]))
  }

  ghost predicate InvEnd(c: Config, s: State)
    requires Shaped(c, s)
  {
    && (s.reader.Closed? && !s.reader.err ==> s.sent == |c.items|)
    && (s.closedChans > 0 && !s.writer.Failed? ==> s.converters[s.next % c.threads].Exited?)
    && (s.writer.Running? ==> s.closedChans < c.threads)
    && (s.writer.Finished? ==> s.closedChans == c.threads)
  }

  ghost predicate Inv(c: Config, s: State) {
    InvLanes(c, s) && InvOutput(c, s) && InvEnd(c, s)
  }

  lemma InitInv(c: Config)
    requires c.threads > 0
    ensures Inv(c, Init(c))
  {
  }

  /** Only lane `t` and its converter change, and together they keep their contents. */
  lemma ReaderSteps(c: Config, s: State, step: Step)
    requires Inv(c, s) && Enabled(c, s, step) && (step.Send? || step.Pass?)
    ensures Inv(c, Apply(c, s, step))
  {
    var u := Apply(c, s, step);
    var r := s.sent % c.threads;
    forall t | 0 <= t < c.threads
      ensures LaneOk(c, u, t)
    {
      assert LaneOk(c, s, t);
      assert t == r ==> Held(u.converters[t]) + u.lanes[t] == Held(s.converters[t]) + s.lanes[t] + [s.sent];
      assert Lane(s.next, s.sent, t, c.threads) + [] == Lane(s.next, s.sent, t, c.threads);
    }
  }

  lemma ConverterSteps(c: Config, s: State, step: Step)
    requires Inv(c, s) && Enabled(c, s, step) && (step.Take? || step.Exit? || step.ConvertCancel?)
    ensures Inv(c, Apply(c, s, step))
  {
    hide Lane, Sequential, Rejected;
    var u := Apply(c, s, step);
    var i := step.t;
    forall t | 0 <= t < c.threads
      ensures LaneOk(c, u, t)
    {
      assert LaneOk(c, s, t);
      if t == i {
        assert step.Take? ==> [s.lanes[t][0]] + s.lanes[t][1..] == s.lanes[t];
        assert s.converters[t].Idle? ==> Held(s.converters[t]) + s.lanes[t] == s.lanes[t];
      }
    }
  }

  /** The writer takes from the lane of its counter, so what it takes is the message of that number. */
  lemma WriterTakesNext(c: Config, s: State)
    requires Inv(c, s) && s.converters[s.next % c.threads].Holding?
    ensures s.next < s.sent && s.converters[s.next % c.threads].k == s.next
  {
    var w := s.next % c.threads;
    assert LaneOk(c, s, w);
    assert Lane(s.next, s.sent, w, c.threads)[0] == s.converters[w].k;
    LaneDropFirst(s.next, s.sent, w, c.threads);
  }

  /** Once the writer has taken message `next` from its lane, what remains is the lane from `next + 1` on. */
  lemma LaneAfterWrite(c: Config, s: State, t: nat)
    requires InvLanes(c, s) && t < c.threads && s.next < s.sent
    requires t == s.next % c.threads ==> s.converters[t] == Holding(s.next)
    ensures (if t == s.next % c.threads then s.lanes[t] else Held(s.converters[t]) + s.lanes[t])
         == Lane(s.next + 1, s.sent, t, c.threads)
  {
    hide Lane;
    assert LaneOk(c, s, t);
    LaneDropFirst(s.next, s.sent, t, c.threads);
    var rest := Lane(s.next + 1, s.sent, t, c.threads);
    if t == s.next % c.threads {
      assert ([s.next] + s.lanes[t])[1..] == s.lanes[t];
      assert ([s.next] + rest)[1..] == rest;
    } else {
      assert [] + rest == rest;
    }
  }

  lemma LaneWritten(c: Config, s: State, u: State, w: nat, t: nat)
    requires InvLanes(c, s) && Shaped(c, u) && t < c.threads && s.next < s.sent && w == s.next % c.threads
    requires s.converters[w] == Holding(s.next)
    requires u.converters == s.converters[w := Idle] && u.lanes == s.lanes && u.next == s.next + 1
    requires u.sent == s.sent && u.reader == s.reader && u.cancelled == s.cancelled
    ensures LaneOk(c, u, t)
  {
    hide Lane;
    assert LaneOk(c, s, t);
    LaneAfterWrite(c, s, t);
    assert [] + u.lanes[t] == u.lanes[t];
  }

  lemma WriterCounts(c: Config, s: State, step: Step)
    requires Shaped(c, s) && Enabled(c, s, step) && (step.Write? || step.WriteFail?)
    ensures Apply(c, s, step).next == s.next + 1 && Shaped(c, Apply(c, s, step))
  {
  }

  lemma WriterLanes(c: Config, s: State, step: Step)
    requires Inv(c, s) && Enabled(c, s, step) && (step.Write? || step.WriteFail?)
    ensures InvLanes(c, Apply(c, s, step))
  {
    hide Lane, LaneOk, Sequential, Rejected, InvOutput, InvEnd, Apply, Enabled;
    var u, w := Apply(c, s, step), s.next % c.threads;
    WriterStepKeeps(c, s, step);
    WriterTakesNext(c, s);
    WriterCounts(c, s, step);
    hide Shaped;
    forall t | 0 <= t < c.threads
      ensures LaneOk(c, u, t)
    {
      LaneWritten(c, s, u, w, t);
    }
  }

  lemma WriterSteps(c: Config, s: State, step: Step)
    requires Inv(c, s) && Enabled(c, s, step) && (step.Write? || step.WriteFail?)
    ensures Inv(c, Apply(c, s, step))
  {
    hide Lane, LaneOk, Sequential, Rejected;
    WriterTakesNext(c, s);
    WriterLanes(c, s, step);
    SequentialNext(c.items, s.next);
    assert Sequential(c.items[..s.next]) + [] == Sequential(c.items[..s.next]);
    assert Rejected(c.items[..s.next]) + [] == Rejected(c.items[..s.next]);
  }

  lemma OtherSteps(c: Config, s: State, step: Step)
    requires Inv(c, s) && Enabled(c, s, step)
    requires step.Read? || step.ReadEof? || step.ReadFail? || step.ReadCancel? || step.SeeClosed? || step.WriteCancel?
             || step.Abort? || step.Cancel?
    ensures Inv(c, Apply(c, s, step))
  {
    hide Lane, Sequential, Rejected;
    var u := Apply(c, s, step);
    forall t | 0 <= t < c.threads
      ensures LaneOk(c, u, t)
    {
      assert LaneOk(c, s, t);
    }
  }

  lemma StepKeepsInv(c: Config, s: State, step: Step)
    requires Inv(c, s) && Enabled(c, s, step)
    ensures Inv(c, Apply(c, s, step))
  {
    if step.Send? || step.Pass? {
      ReaderSteps(c, s, step);
    } else if step.Take? || step.Exit? || step.ConvertCancel? {
      ConverterSteps(c, s, step);
    } else if step.Write? || step.WriteFail? {
      WriterSteps(c, s, step);
    } else {
      OtherSteps(c, s, step);
    }
  }

  // ----- Runs -----

  ghost predicate Reaches(c: Config, steps: seq<Step>, u: State) {
    if steps == [] then u == Init(c)
    else
      var n := |steps| - 1;
      exists s :: Reaches(c, steps[..n], s) && Shaped(c, s) && Enabled(c, s, steps[n]) && u == Apply(c, s, steps[n])
  }

  lemma {:induction false} RunsKeepInv(c: Config, steps: seq<Step>, u: State)
    requires c.threads > 0 && Reaches(c, steps, u)
    ensures Inv(c, u)
    decreases |steps|
  {
    if steps == [] {
      InitInv(c);
    } else {
      hide Inv, Apply, Enabled;
      var n := |steps| - 1;
      var s :| Reaches(c, steps[..n], s) && Shaped(c, s) && Enabled(c, s, steps[n]) && u == Apply(c, s, steps[n]);
      RunsKeepInv(c, steps[..n], s);
      StepKeepsInv(c, s, steps[n]);
    }
  }

  /**
    For any number of threads, any buffer size and any schedule, even under cancellation: the output is
    what a sequential conversion of some prefix of the input would have written.
   */
  lemma OutputIsSequentialPrefix(c: Config, steps: seq<Step>, s: State)
    requires c.threads > 0 && Reaches(c, steps, s)
    ensures s.next <= s.sent <= |c.items|
    ensures exists k :: s.next - 1 <= k <= s.next && 0 <= k && s.output == Sequential(c.items[..k])
    ensures !s.writer.Failed? ==> s.output == Sequential(c.items[..s.next])
  {
    hide Sequential, Rejected, Reaches, Lane;
    RunsKeepInv(c, steps, s);
  }

  /**
    The writer's normal exit, after counting one closed channel once per thread, means that everything was
    handled, cancelled or not, as long as no goroutine has left by an error. So when `Process` returns nil the
    output is complete.
   */
  lemma FinishedMeansAllHandled(c: Config, steps: seq<Step>, s: State)
    requires c.threads > 0 && Reaches(c, steps, s) && s.writer.Finished? && !LeftByError(s)
    ensures s.next == s.sent == |c.items| && s.reader.Closed?
    ensures s.output == Sequential(c.items) && s.errors == Rejected(c.items)
  {
    hide Sequential, Rejected, Reaches;
    RunsKeepInv(c, steps, s);
    AllHandled(c, s);
    assert c.items[..|c.items|] == c.items;
  }

  lemma AllHandled(c: Config, s: State)
    requires Inv(c, s) && s.converters[s.next % c.threads].Exited? && !s.converters[s.next % c.threads].err
    ensures s.next == s.sent && s.reader.Closed?
  {
    assert LaneOk(c, s, s.next % c.threads);
    if s.next < s.sent {
      LaneDropFirst(s.next, s.sent, s.next % c.threads, c.threads);
    }
  }

  /**
    Otherwise a finished writer has missed a message that was read exactly when the converter of its lane
    left by cancellation with work in hand or in its channel; and then `Process` reports an error.
   */
  lemma FinishedMissesIff(c: Config, steps: seq<Step>, s: State)
    requires c.threads > 0 && Reaches(c, steps, s) && s.writer.Finished?
    ensures var w := s.next % c.threads;
      && w < |s.converters| && w < |s.lanes| && s.converters[w].Exited?
      && var v := s.converters[w];
         (s.next < s.sent <==> v.err && v.left + s.lanes[w] != [])
    ensures s.next < s.sent ==> LeftByError(s)
    ensures s.output == Sequential(c.items[..s.next])
  {
    hide Sequential, Rejected, Reaches;
    RunsKeepInv(c, steps, s);
    var w := s.next % c.threads;
    assert LaneOk(c, s, w);
    if s.next < s.sent {
      LaneDropFirst(s.next, s.sent, w, c.threads);
      assert s.converters[w] in s.converters;
    }
  }

  // ----- Progress and termination -----

  predicate AllDone(s: State) {
    s.reader.Closed? && !s.writer.Running? && forall v <- s.converters :: v.Exited?
  }

  /** Nothing in the model keeps what happens outside from happening: every fault is possible where it can strike. */
  lemma FaultsCanStrike(c: Config, s: State)
    requires Inv(c, s)
    ensures !s.cancelled ==> Enabled(c, s, Cancel)
    ensures s.reader.Reading? ==> Enabled(c, s, ReadFail)
    ensures s.reader.Sending? && s.cancelled ==> Enabled(c, s, ReadCancel)
    ensures s.writer.Running? && s.cancelled ==> Enabled(c, s, WriteCancel)
    ensures s.writer.Running? && s.converters[s.next % c.threads].Holding? ==> Enabled(c, s, WriteFail)
    ensures s.cancelled ==>
      forall t :: 0 <= t < c.threads && !s.converters[t].Exited? ==> Enabled(c, s, ConvertCancel(t))
  {
    if s.converters[s.next % c.threads].Holding? {
      WriterTakesNext(c, s);
    }
  }

  /** What happens to a pipeline from outside: its context is cancelled, or reading or writing fails. */
  predicate Outside(step: Step) {
    step.Cancel? || step.ReadFail? || step.WriteFail?
  }

  /** The step possible in a state that is not done: the writer's lane first, then the reader, then any converter. */
  function Possible(c: Config, s: State): Step
    requires Shaped(c, s)
  {
    var r, w := s.sent % c.threads, s.next % c.threads;
    if s.cancelled then PossibleCancelled(c, s)
    else if LeftByError(s) then Abort
    else if s.writer.Running? && s.converters[w].Holding? then Write
    else if s.writer.Running? && s.converters[w].Exited? then SeeClosed
    else if s.writer.Running? && s.lanes[w] != [] then Take(w)
    else if s.reader.Reading? then (if s.sent < |c.items| then Read else ReadEof)
    else if s.reader.Sending? then Pass
    else Exit(if s.writer.Running? then w else OpenConverter(s.converters))
  }

  /** Once the context is cancelled, whoever is left returns. */
  function PossibleCancelled(c: Config, s: State): Step {
    if s.reader.Reading? then (if s.sent < |c.items| then Read else ReadEof)
    else if s.reader.Sending? then ReadCancel
    else if s.writer.Running? then WriteCancel
    else ConvertCancel(OpenConverter(s.converters))
  }

  function OpenConverter(vs: seq<Converter>): nat {
    if vs == [] || !vs[0].Exited? then 0 else 1 + OpenConverter(vs[1..])
  }

  lemma {:induction false} OpenConverterFound(vs: seq<Converter>)
    requires exists v <- vs :: !v.Exited?
    ensures OpenConverter(vs) < |vs| && !vs[OpenConverter(vs)].Exited?
  {
    if vs[0].Exited? {
      assert exists v <- vs[1..] :: !v.Exited?;
      OpenConverterFound(vs[1..]);
    }
  }

  lemma EmptyLanes(c: Config, s: State, t: nat)
    requires Inv(c, s) && t < c.threads && s.next == s.sent && !s.converters[t].Exited?
    ensures s.converters[t].Idle? && s.lanes[t] == []
  {
    assert LaneOk(c, s, t);
    assert Held(s.converters[t]) + s.lanes[t] == [];
  }

  lemma NextInLane(c: Config, s: State)
    requires Inv(c, s) && s.converters[s.next % c.threads].Idle? && s.lanes[s.next % c.threads] == []
    ensures s.next == s.sent
  {
    var w := s.next % c.threads;
    assert LaneOk(c, s, w);
    if s.next < s.sent {
      LaneDropFirst(s.next, s.sent, w, c.threads);
    }
  }

  lemma TakeIsInRange(c: Config, s: State, t: nat)
    requires Inv(c, s) && t < c.threads && s.converters[t].Idle? && s.lanes[t] != []
    ensures s.lanes[t][0] < |c.items|
  {
    assert LaneOk(c, s, t);
    assert Held(s.converters[t]) + s.lanes[t] == s.lanes[t] == Lane(s.next, s.sent, t, c.threads);
    assert s.lanes[t][0] in s.lanes[t];
    LaneBounds(s.next, s.sent, t, c.threads);
  }

  /** A writer that has seen the end leaves nothing in the lanes. */
  lemma FinishedDrained(c: Config, s: State)
    requires Inv(c, s) && s.writer.Finished? && !s.cancelled
    ensures s.next == s.sent && s.reader.Closed?
  {
    assert LaneOk(c, s, s.next % c.threads);
    AllHandled(c, s);
  }

  /** No deadlock: some goroutine can go on by itself until all have returned, cancelled or not. */
  lemma NoDeadlock(c: Config, s: State)
    requires Inv(c, s) && !AllDone(s)
    ensures !Outside(Possible(c, s)) && Enabled(c, s, Possible(c, s))
  {
    hide Lane, LaneOk, Sequential, Rejected;
    if s.cancelled {
      CancelledMoves(c, s);
    } else if !LeftByError(s) {
      UncancelledMoves(c, s);
    }
  }

  lemma CancelledMoves(c: Config, s: State)
    requires Inv(c, s) && !AllDone(s) && s.cancelled
    ensures !Outside(PossibleCancelled(c, s)) && Enabled(c, s, PossibleCancelled(c, s))
  {
    hide Lane, LaneOk, Sequential, Rejected;
    if s.reader.Closed? && !s.writer.Running? {
      OpenConverterFound(s.converters);
    }
  }

  lemma UncancelledMoves(c: Config, s: State)
    requires Inv(c, s) && !AllDone(s) && !s.cancelled && !LeftByError(s)
    ensures !Outside(Possible(c, s)) && Enabled(c, s, Possible(c, s))
  {
    hide Lane, LaneOk, Sequential, Rejected;
    var r, w := s.sent % c.threads, s.next % c.threads;
    if s.writer.Running? {
      if s.converters[w].Holding? {
        WriterTakesNext(c, s);
      } else if s.converters[w].Idle? {
        if s.lanes[w] != [] {
          TakeIsInRange(c, s, w);
        } else {
          NextInLane(c, s);
          ReaderOpenConverters(c, s, r);
        }
      }
    } else {
      FinishedDrained(c, s);
      OpenConverterFound(s.converters);
      EmptyLanes(c, s, OpenConverter(s.converters));
    }
  }

  /** While the reader is still at work no converter has exited on its own. */
  lemma ReaderOpenConverters(c: Config, s: State, t: nat)
    requires Inv(c, s) && !s.cancelled && t < c.threads && s.next == s.sent
    ensures !s.reader.Closed? ==> s.converters[t].Idle? && s.lanes[t] == []
  {
    assert LaneOk(c, s, t);
    if !s.reader.Closed? {
      EmptyLanes(c, s, t);
    }
  }

  /** Work left: every step uses some of it up. */
  function Work(c: Config, s: State): nat
    requires Shaped(c, s)
  {
    4 * (|c.items| - s.sent) - (if s.reader.Sending? then 1 else 0) + (if s.reader.Closed? then 0 else 2)
    + 2 * Waiting(s.lanes) + Busy(s.converters)
    + (if s.closedChans < c.threads then c.threads - s.closedChans else 0)
    + (if s.writer.Running? then 1 else 0) + (if s.cancelled then 0 else 1)
  }

  function Waiting(lanes: seq<seq<nat>>): nat {
    if lanes == [] then 0 else |lanes[0]| + Waiting(lanes[1..])
  }

  function Load(v: Converter): nat {
    match v
    case Idle => 1
    case Holding(_) => 2
    case Exited => 0
  }

  function Busy(vs: seq<Converter>): nat {
    if vs == [] then 0 else Load(vs[0]) + Busy(vs[1..])
  }

  lemma {:induction false} WaitingUpdate(lanes: seq<seq<nat>>, t: nat, l: seq<nat>)
    requires t < |lanes|
    ensures Waiting(lanes[t := l]) == Waiting(lanes) - |lanes[t]| + |l|
  {
    if t == 0 {
      assert lanes[t := l][1..] == lanes[1..];
    } else {
      assert lanes[t := l][1..] == lanes[1..][t - 1 := l];
      WaitingUpdate(lanes[1..], t - 1, l);
    }
  }

  lemma {:induction false} BusyUpdate(vs: seq<Converter>, t: nat, v: Converter)
    requires t < |vs|
    ensures Busy(vs[t := v]) == Busy(vs) - Load(vs[t]) + Load(v)
  {
    if t == 0 {
      assert vs[t := v][1..] == vs[1..];
    } else {
      assert vs[t := v][1..] == vs[1..][t - 1 := v];
      BusyUpdate(vs[1..], t - 1, v);
    }
  }

  lemma ReaderStepUsesWork(c: Config, s: State, step: Step)
    requires Inv(c, s) && Enabled(c, s, step) && Shaped(c, Apply(c, s, step))
    requires step.Send? || step.Pass?
    ensures Work(c, Apply(c, s, step)) < Work(c, s)
  {
    hide Inv, Waiting, Busy;
    InvShaped(c, s);
    var r := s.sent % c.threads;
    if step.Send? {
      WaitingUpdate(s.lanes, r, s.lanes[r] + [s.sent]);
    } else {
      BusyUpdate(s.converters, r, Holding(s.sent));
    }
  }

  lemma WriterStepKeeps(c: Config, s: State, step: Step)
    requires Shaped(c, s) && Enabled(c, s, step) && (step.Write? || step.WriteFail?)
    ensures var u, w := Apply(c, s, step), s.next % c.threads;
      && s.converters[w].Holding? && u.converters == s.converters[w := Idle]
      && u == s.(converters := u.converters, next := u.next, writer := u.writer, output := u.output, errors := u.errors)
  {
  }

  lemma WriterStepUsesWork(c: Config, s: State, step: Step)
    requires Shaped(c, s) && Enabled(c, s, step) && Shaped(c, Apply(c, s, step))
    requires step.Write? || step.WriteFail?
    ensures Work(c, Apply(c, s, step)) < Work(c, s)
  {
    WriterStepKeeps(c, s, step);
    hide Waiting, Busy, Apply, Enabled, Shaped;
    BusyUpdate(s.converters, s.next % c.threads, Idle);
  }

  lemma ConverterStepUsesWork(c: Config, s: State, step: Step)
    requires Inv(c, s) && Enabled(c, s, step) && Shaped(c, Apply(c, s, step))
    requires step.Take? || step.Exit? || step.ConvertCancel?
    ensures Work(c, Apply(c, s, step)) < Work(c, s)
  {
    hide Inv, Waiting, Busy;
    InvShaped(c, s);
    var t := step.t;
    if step.Take? {
      WaitingUpdate(s.lanes, t, s.lanes[t][1..]);
      BusyUpdate(s.converters, t, Holding(s.lanes[t][0]));
    } else {
      BusyUpdate(s.converters, t, Apply(c, s, step).converters[t]);
    }
  }

  lemma OtherStepUsesWork(c: Config, s: State, step: Step)
    requires Inv(c, s) && Enabled(c, s, step) && Shaped(c, Apply(c, s, step))
    requires step.Read? || step.ReadEof? || step.ReadFail? || step.ReadCancel? || step.SeeClosed? || step.WriteCancel?
             || step.Abort? || step.Cancel?
    ensures Work(c, Apply(c, s, step)) < Work(c, s)
  {
    hide InvLanes, InvOutput, Waiting, Busy;
  }

  lemma EveryStepUsesWork(c: Config, s: State, step: Step)
    requires Inv(c, s) && Enabled(c, s, step)
    ensures Shaped(c, Apply(c, s, step)) && Work(c, Apply(c, s, step)) < Work(c, s)
  {
    hide Inv, Apply, Work, Enabled;
    InvShaped(c, s);
    StepKeepsInv(c, s, step);
    InvShaped(c, Apply(c, s, step));
    if step.Send? || step.Pass? {
      ReaderStepUsesWork(c, s, step);
    } else if step.Write? || step.WriteFail? {
      WriterStepUsesWork(c, s, step);
    } else if step.Take? || step.Exit? || step.ConvertCancel? {
      ConverterStepUsesWork(c, s, step);
    } else {
      OtherStepUsesWork(c, s, step);
    }
  }

  /** Every run, faulty or not, is finite: its length is bounded by the work there was at the start. */
  lemma {:induction false} RunsTerminate(c: Config, steps: seq<Step>, u: State)
    requires c.threads > 0 && Reaches(c, steps, u)
    ensures Inv(c, u) && |steps| + Work(c, u) <= Work(c, Init(c))
    decreases |steps|
  {
    RunsKeepInv(c, steps, u);
    if steps != [] {
      hide Inv, Apply, Enabled, Work;
      var n := |steps| - 1;
      var s :| Reaches(c, steps[..n], s) && Shaped(c, s) && Enabled(c, s, steps[n]) && u == Apply(c, s, steps[n]);
      RunsTerminate(c, steps[..n], s);
      EveryStepUsesWork(c, s, steps[n]);
    }
  }

  /** A run that has stopped, because no goroutine can go on by itself, has everything returned. */
  lemma StoppedRunIsComplete(c: Config, steps: seq<Step>, s: State)
    requires c.threads > 0 && Reaches(c, steps, s)
    requires Shaped(c, s) ==> forall step :: !Outside(step) ==> !Enabled(c, s, step)
    ensures AllDone(s)
    ensures !LeftByError(s) ==> s.output == Sequential(c.items) && s.errors == Rejected(c.items)
  {
    hide Inv, Sequential, Rejected, Reaches;
    RunsKeepInv(c, steps, s);
    InvShaped(c, s);
    if !AllDone(s) {
      NoDeadlock(c, s);
    }
    if !LeftByError(s) {
      FinishedMeansAllHandled(c, steps, s);
    }
  }

  // ----- Runs nothing happens to from outside -----

  predicate AllGood(items: seq<Input>) { forall i <- items :: i.Good? }

  /** The writer has failed for one reason only: the message it handled last is the first that does not convert. */
  ghost predicate Tidy(c: Config, s: State)
    requires s.next <= |c.items|
  {
    && (s.cancelled ==> s.writer.Failed?)
    && (s.reader.Closed? && s.reader.err ==> s.cancelled)
    && (if s.writer.Failed? then
          && c.failOnConvertErrors && s.next > 0 && c.items[s.next - 1].Bad? && AllGood(c.items[..s.next - 1])
          && s.output == Sequential(c.items[..s.next - 1])
        else c.failOnConvertErrors ==> AllGood(c.items[..s.next]))
  }

  lemma TidyWrite(c: Config, s: State)
    requires Inv(c, s) && Enabled(c, s, Write) && Tidy(c, s) && Shaped(c, Apply(c, s, Write))
    ensures Tidy(c, Apply(c, s, Write))
  {
    hide Lane, LaneOk, Sequential, Rejected;
    WriterTakesNext(c, s);
    var k := s.next;
    assert c.items[..k + 1] == c.items[..k] + [c.items[k]];
  }

  lemma TidyStep(c: Config, s: State, step: Step)
    requires Inv(c, s) && Enabled(c, s, step) && Tidy(c, s) && !Outside(step)
    ensures Shaped(c, Apply(c, s, step)) && Tidy(c, Apply(c, s, step))
  {
    StepKeepsInv(c, s, step);
    InvShaped(c, Apply(c, s, step));
    if step.Write? {
      TidyWrite(c, s);
    } else {
      TidyOther(c, s, step);
    }
  }

  lemma TidyOther(c: Config, s: State, step: Step)
    requires Inv(c, s) && Enabled(c, s, step) && Tidy(c, s) && !Outside(step) && !step.Write?
    requires Shaped(c, Apply(c, s, step))
    ensures Tidy(c, Apply(c, s, step))
  {
    hide Lane, Sequential, Rejected, InvOutput, InvEnd;
    if step.Abort? {
      ErrorIsWriters(c, s);
    }
  }

  /** In a tidy state the only error is the writer's. */
  lemma ErrorIsWriters(c: Config, s: State)
    requires InvLanes(c, s) && Tidy(c, s)
    ensures LeftByError(s) <==> s.writer.Failed?
  {
    hide Lane, Sequential;
    forall v <- s.converters | v.Exited? && v.err
      ensures s.cancelled
    {
      var t :| 0 <= t < |s.converters| && s.converters[t] == v;
      assert LaneOk(c, s, t);
    }
  }

  lemma {:induction false} TidyRuns(c: Config, steps: seq<Step>, u: State)
    requires c.threads > 0 && Reaches(c, steps, u) && forall step <- steps :: !Outside(step)
    ensures Inv(c, u) && Shaped(c, u) && Tidy(c, u)
    decreases |steps|
  {
    RunsKeepInv(c, steps, u);
    InvShaped(c, u);
    if steps != [] {
      hide Inv, Apply, Enabled, Tidy, Shaped;
      var n := |steps| - 1;
      var s :| Reaches(c, steps[..n], s) && Shaped(c, s) && Enabled(c, s, steps[n]) && u == Apply(c, s, steps[n]);
      assert steps[n] in steps && forall step <- steps[..n] :: step in steps;
      TidyRuns(c, steps[..n], s);
      TidyStep(c, s, steps[n]);
    }
  }

  /**
    Nothing from outside: a goroutine has returned an error if and only if conversion errors are to be fatal
    and a message that does not convert has been handled; the writer stops right there, with the
    conversion of everything before that message written.
   */
  lemma FailsIff(c: Config, steps: seq<Step>, s: State)
    requires c.threads > 0 && Reaches(c, steps, s) && forall step <- steps :: !Outside(step)
    ensures s.next <= |c.items|
    ensures LeftByError(s) <==> c.failOnConvertErrors && !AllGood(c.items[..s.next])
    ensures LeftByError(s) ==>
      && s.next > 0 && c.items[s.next - 1].Bad? && AllGood(c.items[..s.next - 1])
      && s.output == Sequential(c.items[..s.next - 1])
  {
    hide Reaches, Sequential, Rejected, Lane;
    TidyRuns(c, steps, s);
    ErrorIsWriters(c, s);
    if s.next > 0 {
      assert c.items[s.next - 1] in c.items[..s.next];
    }
  }

  /**
    What `Process` does when nothing happens from outside, for any threads, buffers and schedule. It returns,
    with an error exactly when conversion errors are fatal and some message does not convert. Then it has
    written the conversion of what precedes the first such message, and otherwise that of the whole input.
   */
  lemma ProcessResult(c: Config, steps: seq<Step>, s: State)
    requires c.threads > 0 && Reaches(c, steps, s) && forall step <- steps :: !Outside(step)
    requires Shaped(c, s) ==> forall step :: !Outside(step) ==> !Enabled(c, s, step)
    ensures AllDone(s)
    ensures LeftByError(s) <==> c.failOnConvertErrors && !AllGood(c.items)
    ensures !LeftByError(s) ==> s.output == Sequential(c.items) && s.errors == Rejected(c.items)
    ensures LeftByError(s) ==>
      && 0 < s.next <= |c.items| && c.items[s.next - 1].Bad? && AllGood(c.items[..s.next - 1])
      && s.output == Sequential(c.items[..s.next - 1])
  {
    hide Reaches, Sequential, Rejected, Inv, Enabled;
    StoppedRunIsComplete(c, steps, s);
    FailsIff(c, steps, s);
    if !LeftByError(s) {
      FinishedMeansAllHandled(c, steps, s);
      assert c.items[..s.next] == c.items;
    } else {
      assert c.items[s.next - 1] in c.items;
    }
  }

  lemma InvShaped(c: Config, s: State)
    requires Inv(c, s)
    ensures Shaped(c, s)
  {
  }

  ghost predicate Reachable(c: Config, s: State) {
    Shaped(c, s) && exists steps :: Reaches(c, steps, s)
  }

  lemma Then(c: Config, s: State, step: Step)
    requires c.threads > 0 && Reachable(c, s) && Enabled(c, s, step)
    ensures Reachable(c, Apply(c, s, step))
  {
    hide Shaped, Enabled, Apply;
    var steps :| Reaches(c, steps, s);
    assert (steps + [step])[..|steps|] == steps;
    assert Reaches(c, steps + [step], Apply(c, s, step));
    RunsKeepInv(c, steps + [step], Apply(c, s, step));
    InvShaped(c, Apply(c, s, step));
  }

  lemma InitReachable(c: Config)
    requires c.threads > 0
    ensures Reachable(c, Init(c))
  {
    assert Reaches(c, [], Init(c));
  }

  /** The writer's own exit promises nothing under cancellation: here it is normal with a message still unhandled. */
  lemma CancelledFinishMayMissInput() returns (c: Config, s: State)
    ensures Reachable(c, s) && s.writer.Finished? && s.next < s.sent && s.output != Sequential(c.items)
  {
    hide Reaches, Sequential, Rejected;
    c := Config([Good([1])], 1, 1, false);
    var s0 := Init(c);
    InitReachable(c);
    Then(c, s0, Read);
    var s1 := Apply(c, s0, Read);
    Then(c, s1, Send);
    var s2 := Apply(c, s1, Send);
    Then(c, s2, Cancel);
    var s3 := Apply(c, s2, Cancel);
    Then(c, s3, ConvertCancel(0));
    var s4 := Apply(c, s3, ConvertCancel(0));
    Then(c, s4, SeeClosed);
    s := Apply(c, s4, SeeClosed);
    assert c.items[..0] == [];
    SequentialNext(c.items, 0);
    assert c.items[..1] == c.items;
  }
}
