/**
  The published counters of the plain-TCP and CONNECT proxies (`tcpProxy.handle`,
  `httpProxy.ServeHTTP`). Any number of handlers run at once; a step is one
  handler reaching its next update of a shared counter, and a run is any
  interleaving of such steps with new connections arriving.
 */
module Counters {
  import opened Wrappers

  datatype Kind = Tcp | Http

  datatype Label = DisallowedSource | BadMethod | HijackUnsupported | DialFailed | HijackFailed | NetworkError

  /** Where a handler stands: its checks, the two increments, the splice, the deferred decrement, the end. */
  datatype Stage = Gate | Method | Hijackable | Dial | Hijack | Greet | Start | Activate | Copying | Unwind | Gone

  /** A handler, with the label it has counted under, and whether it has counted itself as started. */
  datatype Handler = Handler(stage: Stage, charged: Option<Label>, began: bool)

  datatype State = State(handlers: seq<Handler>, started: nat, active: int, errors: map<Label, nat>)

  /** A connection arrives, or handler i goes on; `ok` says whether what it does next succeeds. */
  datatype Step = Accept | Go(i: nat, ok: bool)

  const FRESH: Handler := Handler(Gate, None, false)

  const INITIAL: State := State([], 0, 0, map[])

  function Get(errors: map<Label, nat>, l: Label): nat {
    if l in errors then errors[l] else 0
  }

  /** The stage after a success, and the label of a failure, in the order of the code. */
  function Next(kind: Kind, stage: Stage): Stage {
    match stage
    case Gate => if kind == Tcp then Dial else Method
    case Method => Hijackable
    case Hijackable => Dial
    case Dial => if kind == Tcp then Start else Hijack
    case Hijack => Greet
    case Greet => Start
    case Start => Activate
    case Activate => Copying
    case Copying => Unwind
    case Unwind => Gone
    case Gone => Gone
  }

  function FailureLabel(kind: Kind, stage: Stage): Option<Label> {
    match stage
    case Gate => Some(DisallowedSource)
    case Method => Some(BadMethod)
    case Hijackable => Some(HijackUnsupported)
    case Dial => Some(DialFailed)
    case Hijack => Some(HijackFailed)
    case Greet => Some(NetworkError)
    case Copying => if kind == Tcp then Some(NetworkError) else None
    case _ => None
  }

  predicate Enabled(s: State, step: Step) {
    step.Go? ==> step.i < |s.handlers| && s.handlers[step.i].stage != Gone
  }

  /** The handler after its step: a failed check ends it, a failed splice still unwinds. */
  function Moved(kind: Kind, h: Handler, ok: bool): Handler {
    var why := FailureLabel(kind, h.stage);
    if !ok && why.Some?
    then Handler(if h.stage == Copying then Unwind else Gone, why, h.began)
    else Handler(Next(kind, h.stage), h.charged, h.began || h.stage == Start)
  }

  function Apply(kind: Kind, s: State, step: Step): State
    requires Enabled(s, step)
  {
    match step
    case Accept => s.(handlers := s.handlers + [FRESH])
    case Go(i, ok) =>
      var h := s.handlers[i];
      var why := FailureLabel(kind, h.stage);
      State(
        s.handlers[i := Moved(kind, h, ok)],
        if h.stage == Start then s.started + 1 else s.started,
        if h.stage == Activate then s.active + 1 else if h.stage == Unwind then s.active - 1 else s.active,
        if !ok && why.Some? then s.errors[why.value := Get(s.errors, why.value) + 1] else s.errors)
  }

  function Run(kind: Kind, steps: seq<Step>): Option<State> {
    if steps == [] then Some(INITIAL)
    else
      match Run(kind, steps[..|steps| - 1])
      case None => None
      case Some(s) =>
        var step := steps[|steps| - 1];
        if Enabled(s, step) then Some(Apply(kind, s, step)) else None
  }

  // ------------------------------------------------------------------ counting

  /** What the counters count: sessions begun, sessions going on, handlers charged under a label. */
  datatype Property = Began | InSession | Charged(under: Label)

  predicate Has(h: Handler, p: Property) {
    match p
    case Began => h.began
    case InSession => h.stage == Copying || h.stage == Unwind
    case Charged(l) => h.charged == Some(l)
  }

  /** How many handlers have a property. */
  function Count(hs: seq<Handler>, p: Property): nat {
    if hs == [] then 0 else Count(hs[..|hs| - 1], p) + if Has(hs[|hs| - 1], p) then 1 else 0
  }

  lemma {:induction false} CountSnoc(hs: seq<Handler>, h: Handler, p: Property)
    ensures Count(hs + [h], p) == Count(hs, p) + if Has(h, p) then 1 else 0
  {
    assert (hs + [h])[..|hs|] == hs;
  }

  lemma {:induction false} CountUpdate(hs: seq<Handler>, i: nat, h: Handler, p: Property)
    requires i < |hs|
    ensures Count(hs[i := h], p) + (if Has(hs[i], p) then 1 else 0) == Count(hs, p) + if Has(h, p) then 1 else 0
  {
    var n := |hs| - 1;
    if i == n {
      assert hs[i := h][..n] == hs[..n];
    } else {
      CountUpdate(hs[..n], i, h, p);
      assert hs[i := h][..n] == hs[..n][i := h];
    }
  }

  // ---------------------------------------------------------------- invariant

  /** A handler has begun exactly from the first increment on, and only the TCP splice charges a begun one. */
  predicate HandlerInv(kind: Kind, h: Handler) {
    && (h.stage in {Activate, Copying, Unwind} ==> h.began)
    && (h.stage in {Gate, Method, Hijackable, Dial, Hijack, Greet, Start} ==> !h.began)
    && (h.stage !in {Unwind, Gone} ==> h.charged.None?)
    && (h.stage == Gone && !h.began ==> h.charged.Some?)
    && (h.began && h.charged.Some? ==> kind == Tcp && h.charged == Some(NetworkError))
    && (kind == Tcp ==> h.stage !in {Method, Hijackable, Hijack, Greet})
    && (kind == Tcp && h.charged.Some? ==>
          h.charged.value == (if h.began then NetworkError else if h.charged == Some(DialFailed) then DialFailed
            else DisallowedSource))
  }

  ghost predicate Inv(kind: Kind, s: State) {
    && (forall p :: Counter(s, p) == Count(s.handlers, p))
    && forall i :: 0 <= i < |s.handlers| ==> HandlerInv(kind, s.handlers[i])
  }

  /** A counter, by the property it counts. */
  function Counter(s: State, p: Property): int {
    match p
    case Began => s.started
    case InSession => s.active
    case Charged(l) => Get(s.errors, l)
  }

  /** One handler's step changes each counter by what it changes of the handler. */
  lemma {:induction false} CounterMoves(kind: Kind, s: State, i: nat, ok: bool, p: Property)
    requires Enabled(s, Go(i, ok)) && HandlerInv(kind, s.handlers[i])
    ensures var h := s.handlers[i];
            Counter(Apply(kind, s, Go(i, ok)), p) + (if Has(h, p) then 1 else 0)
            == Counter(s, p) + if Has(Moved(kind, h, ok), p) then 1 else 0
  {
  }

  lemma {:induction false} MovedKeepsInv(kind: Kind, h: Handler, ok: bool)
    requires HandlerInv(kind, h) && h.stage != Gone
    ensures HandlerInv(kind, Moved(kind, h, ok))
  {
  }

  lemma {:induction false} StepKeepsInv(kind: Kind, s: State, step: Step)
    requires Inv(kind, s) && Enabled(s, step)
    ensures Inv(kind, Apply(kind, s, step))
  {
    hide Count, HandlerInv, Counter, FailureLabel, Next, Get, Moved, Has;
    var t := Apply(kind, s, step);
    if step.Accept? {
      FreshInv(kind);
      forall p ensures Counter(t, p) == Count(t.handlers, p) {
        CountSnoc(s.handlers, FRESH, p);
        AcceptCounts(kind, s, p);
      }
    } else {
      var h := s.handlers[step.i];
      assert HandlerInv(kind, h);
      MovedKeepsInv(kind, h, step.ok);
      forall p ensures Counter(t, p) == Count(t.handlers, p) {
        CountUpdate(s.handlers, step.i, Moved(kind, h, step.ok), p);
        CounterMoves(kind, s, step.i, step.ok, p);
      }
    }
  }

  lemma {:induction false} FreshInv(kind: Kind)
    ensures HandlerInv(kind, FRESH)
  {
  }

  lemma {:induction false} AcceptCounts(kind: Kind, s: State, p: Property)
    ensures Counter(Apply(kind, s, Accept), p) == Counter(s, p) && !Has(FRESH, p)
  {
  }

  lemma {:induction false} RunKeepsInv(kind: Kind, steps: seq<Step>, s: State)
    requires Run(kind, steps) == Some(s)
    ensures Inv(kind, s)
  {
    hide HandlerInv, Apply, Enabled;
    if steps == [] {
    } else {
      var n := |steps| - 1;
      var s0 := Run(kind, steps[..n]).value;
      RunKeepsInv(kind, steps[..n], s0);
      StepKeepsInv(kind, s0, steps[n]);
    }
  }

  // ----------------------------------------------------------------- theorems

  /**
    In every reachable state the gauge counts exactly the handlers between its
    increment and its deferred decrement, so it is never negative and never
    exceeds the sessions started, and every label counts its own handlers.
   */
  lemma {:induction false} CountersAreExact(kind: Kind, steps: seq<Step>, s: State)
    requires Run(kind, steps) == Some(s)
    ensures forall p :: Counter(s, p) == Count(s.handlers, p)
    ensures 0 <= s.active <= s.started <= |s.handlers|
  {
    RunKeepsInv(kind, steps, s);
    CountMonotone(kind, s.handlers);
    assert Counter(s, Began) == s.started && Counter(s, InSession) == s.active;
  }

  lemma {:induction false} CountMonotone(kind: Kind, hs: seq<Handler>)
    requires forall i :: 0 <= i < |hs| ==> HandlerInv(kind, hs[i])
    ensures Count(hs, InSession) <= Count(hs, Began) <= |hs|
  {
    if hs == [] {
    } else {
      CountMonotone(kind, hs[..|hs| - 1]);
      assert HandlerInv(kind, hs[|hs| - 1]);
    }
  }

  /** How many times a handler failed at a stage, over a run. */
  function FailedAt(kind: Kind, steps: seq<Step>, stage: Stage): nat {
    if steps == [] then 0
    else
      var n := |steps| - 1;
      var s, step := Run(kind, steps[..n]), steps[n];
      var here := s.Some? && step.Go? && Enabled(s.value, step) && !step.ok && s.value.handlers[step.i].stage == stage;
      FailedAt(kind, steps[..n], stage) + if here then 1 else 0
  }

  /** The check behind each label. Only a TCP proxy counts a splice that ended with an error. */
  predicate CheckOf(kind: Kind, l: Label, stage: Stage) {
    match l
    case DisallowedSource => stage == Gate
    case BadMethod => stage == Method
    case HijackUnsupported => stage == Hijackable
    case DialFailed => stage == Dial
    case HijackFailed => stage == Hijack
    case NetworkError => stage == Greet || (kind == Tcp && stage == Copying)
  }

  /** How often the check behind a label failed. */
  function Failures(kind: Kind, steps: seq<Step>, l: Label): nat {
    match l
    case DisallowedSource => FailedAt(kind, steps, Gate)
    case BadMethod => FailedAt(kind, steps, Method)
    case HijackUnsupported => FailedAt(kind, steps, Hijackable)
    case DialFailed => FailedAt(kind, steps, Dial)
    case HijackFailed => FailedAt(kind, steps, Hijack)
    case NetworkError => FailedAt(kind, steps, Greet) + if kind == Tcp then FailedAt(kind, steps, Copying) else 0
  }

  /** Every label counts exactly the failures of its own check, in every run. */
  lemma {:induction false} LabelsCountFailures(kind: Kind, steps: seq<Step>, s: State, l: Label)
    requires Run(kind, steps) == Some(s)
    ensures Get(s.errors, l) == Failures(kind, steps, l)
  {
    if steps == [] {
    } else {
      var n := |steps| - 1;
      var s0 := Run(kind, steps[..n]).value;
      assert Enabled(s0, steps[n]) && s == Apply(kind, s0, steps[n]);
      LabelsCountFailures(kind, steps[..n], s0, l);
      LabelStep(kind, s0, steps[n], l);
      hide Run, Apply, Enabled, Get;
    }
  }

  lemma {:induction false} LabelStep(kind: Kind, s: State, step: Step, l: Label)
    requires Enabled(s, step)
    ensures Get(Apply(kind, s, step).errors, l) ==
            Get(s.errors, l) + if step.Go? && !step.ok && CheckOf(kind, l, s.handlers[step.i].stage) then 1 else 0
  {
    hide Moved, Next;
  }

  /** The stages of a handler for which everything goes well. */
  function Path(kind: Kind, stage: Stage, n: nat): seq<Stage>
    decreases n
  {
    if n == 0 then [stage] else [stage] + Path(kind, Next(kind, stage), n - 1)
  }

  /** The order of the code: gate, dial, count, splice; a CONNECT proxy checks more before and greets after its dial. */
  lemma {:induction false} StagesInOrder()
    ensures Path(Tcp, Gate, 6) == [Gate, Dial, Start, Activate, Copying, Unwind, Gone]
    ensures Path(Http, Gate, 10) ==
            [Gate, Method, Hijackable, Dial, Hijack, Greet, Start, Activate, Copying, Unwind, Gone]
  {
    assert Path(Tcp, Start, 4) == [Start, Activate, Copying, Unwind, Gone] by { LastStages(Tcp); }
    assert Path(Http, Start, 4) == [Start, Activate, Copying, Unwind, Gone] by { LastStages(Http); }
    assert Path(Http, Hijack, 6) == [Hijack] + ([Greet] + Path(Http, Start, 4));
    assert Path(Http, Method, 9) == [Method] + ([Hijackable] + ([Dial] + Path(Http, Hijack, 6)));
    assert Path(Tcp, Dial, 5) == [Dial] + Path(Tcp, Start, 4);
  }

  lemma {:induction false} LastStages(kind: Kind)
    ensures Path(kind, Start, 4) == [Start, Activate, Copying, Unwind, Gone]
  {
    assert Path(kind, Gone, 0) == [Gone] && Path(kind, Unwind, 1) == [Unwind] + [Gone];
    assert Path(kind, Copying, 2) == [Copying] + ([Unwind] + [Gone]);
    assert Path(kind, Activate, 3) == [Activate] + ([Copying] + ([Unwind] + [Gone]));
  }

  predicate Quiet(s: State) {
    forall i :: 0 <= i < |s.handlers| ==> s.handlers[i].stage == Gone
  }

  /** The connections refused before a session began, by the labels a proxy of this kind can use. */
  function Refusals(kind: Kind, e: map<Label, nat>): nat {
    Get(e, DisallowedSource) + Get(e, DialFailed)
    + if kind == Tcp then 0
      else Get(e, BadMethod) + Get(e, HijackUnsupported) + Get(e, HijackFailed) + Get(e, NetworkError)
  }

  /**
    Conservation. When every handler is done the gauge is back at zero and every
    connection was either started or refused under exactly one label. For a TCP
    proxy network-error is a subset of the started sessions; for the CONNECT
    proxy it never is, because the splice's result is dropped.
   */
  lemma {:induction false} EveryConnectionIsCounted(kind: Kind, steps: seq<Step>, s: State)
    requires Run(kind, steps) == Some(s) && Quiet(s)
    ensures s.active == 0 && |s.handlers| == s.started + Refusals(kind, s.errors)
    ensures kind == Tcp ==> Get(s.errors, NetworkError) <= s.started
  {
    RunKeepsInv(kind, steps, s);
    hide Run, HandlerInv;
    QuietCounts(kind, s.handlers);
    assert Counter(s, Began) == s.started && Counter(s, InSession) == s.active;
    forall l ensures Get(s.errors, l) == Count(s.handlers, Charged(l)) {
      assert Counter(s, Charged(l)) == Get(s.errors, l);
    }
  }

  /** The same sum over the handlers. */
  function RefusedCount(kind: Kind, hs: seq<Handler>): nat {
    Count(hs, Charged(DisallowedSource)) + Count(hs, Charged(DialFailed))
    + if kind == Tcp then 0
      else Count(hs, Charged(BadMethod)) + Count(hs, Charged(HijackUnsupported))
           + Count(hs, Charged(HijackFailed)) + Count(hs, Charged(NetworkError))
  }

  lemma {:induction false} QuietCounts(kind: Kind, hs: seq<Handler>)
    requires forall i :: 0 <= i < |hs| ==> HandlerInv(kind, hs[i]) && hs[i].stage == Gone
    ensures Count(hs, InSession) == 0 && |hs| == Count(hs, Began) + RefusedCount(kind, hs)
    ensures kind == Tcp ==> Count(hs, Charged(NetworkError)) <= Count(hs, Began)
  {
    if hs == [] {
    } else {
      var init, h := hs[..|hs| - 1], hs[|hs| - 1];
      QuietCounts(kind, init);
      OneRefusal(kind, h);
      assert hs == init + [h];
      forall p ensures Count(hs, p) == Count(init, p) + One(h, p) {
        CountSnoc(init, h, p);
      }
      hide Count;
    }
  }

  function One(h: Handler, p: Property): nat {
    if Has(h, p) then 1 else 0
  }

  /** A finished handler began, or carries exactly one label of a refusal. */
  lemma {:induction false} OneRefusal(kind: Kind, h: Handler)
    requires HandlerInv(kind, h) && h.stage == Gone
    ensures !Has(h, InSession) && (kind == Tcp && Has(h, Charged(NetworkError)) ==> Has(h, Began))
    ensures 1 == One(h, Began) + One(h, Charged(DisallowedSource)) + One(h, Charged(DialFailed))
                 + if kind == Tcp then 0
                   else One(h, Charged(BadMethod)) + One(h, Charged(HijackUnsupported))
                        + One(h, Charged(HijackFailed)) + One(h, Charged(NetworkError))
  {
    if h.charged.Some? {
      match h.charged.value
      case DisallowedSource =>
      case _ =>
    }
  }
}
