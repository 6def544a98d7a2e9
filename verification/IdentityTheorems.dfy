/** What failed lookups leave behind in the identity caches, and runs that meet the bounds. */
module IdentityTheorems {
  import opened Octets
  import opened Wrappers
  import opened DnsQuestion
  import opened DnsAlias
  import opened IdentityCache

  // ----------------------------------------------------- lookups that fail

  /** A lookup whose TXT query failed: it holds the bare app, before or after its store. */
  predicate Degraded(l: Lookup, was: Lookup)
    requires was.NeedTxt?
  {
    var source := AppOnly(was.asked, was.app, was.id);
    || (l.Resolved? && l == Resolved(was.ip, was.app, source, l.since))
    || (l.Finished? && l == Finished(was.ip, was.app, source, None, l.at))
  }

  lemma {:induction false} FailedStaysDegraded(lag: nat, steps: seq<Step>, i: nat, t: nat, s: State, before: State)
    requires Run(lag, steps) == Some(s) && i < |steps| && steps[i] == Txt(t, None)
    requires Run(lag, steps[..i]) == Some(before) && t in before.threads && before.threads[t].NeedTxt?
    ensures t in s.threads && Degraded(s.threads[t], before.threads[t])
  {
    hide *;
    var n := |steps| - 1;
    assert steps[..n + 1] == steps;
    RunPrefix(lag, steps, n);
    var s0 := Run(lag, steps[..n]).value;
    StepOfRun(lag, steps, n, s0, s);
    if i == n {
      FailureDegrades(lag, before, t);
    } else {
      assert steps[..n][..i] == steps[..i];
      FailedStaysDegraded(lag, steps[..n], i, t, s0, before);
      DegradedStep(lag, s0, steps[n], t, before.threads[t]);
    }
  }

  lemma {:induction false} FailureDegrades(lag: nat, s: State, t: nat)
    requires t in s.threads && s.threads[t].NeedTxt? && Enabled(lag, s, Txt(t, None))
    ensures t in Apply(lag, s, Txt(t, None)).threads && Degraded(Apply(lag, s, Txt(t, None)).threads[t], s.threads[t])
  {
  }

  lemma {:induction false} DegradedStep(lag: nat, s: State, step: Step, t: nat, was: Lookup)
    requires was.NeedTxt? && t in s.threads && Degraded(s.threads[t], was) && Enabled(lag, s, step)
    ensures t in Apply(lag, s, step).threads && Degraded(Apply(lag, s, step).threads[t], was)
  {
    if step.Tick? || step.t != t {
      OtherThread(lag, s, step, t);
      hide Apply, Enabled;
    } else {
      DegradedOnlyStores(lag, s, step, t, was);
    }
  }

  /** All such a lookup can still do is to store the bare app. */
  lemma {:induction false} DegradedOnlyStores(lag: nat, s: State, step: Step, t: nat, was: Lookup)
    requires was.NeedTxt? && t in s.threads && Degraded(s.threads[t], was)
    requires Enabled(lag, s, step) && !step.Tick? && step.t == t
    ensures step.StoreIdent?
    ensures var s' := Apply(lag, s, step);
            && t in s'.threads && Degraded(s'.threads[t], was) && s'.tables == s.tables
            && s'.idents ==
               s.idents[was.ip := IdentEntry(was.app, step.stamp + TTL, AppOnly(was.asked, was.app, was.id), s.now)]
  {
    hide PtrResult, WithRegion, Learnt;
  }

  lemma {:induction false} TxtNeeds(lag: nat, s: State, t: nat)
    requires Enabled(lag, s, Txt(t, None))
    ensures t in s.threads && s.threads[t].NeedTxt?
  {
  }

  /**
    In every run, all that a lookup does after a failed TXT query is to store the
    bare app: it never touches the table of regions, and the only change it makes
    to the identities is this entry under its own address.
   */
  lemma {:induction false} FailedTxtLeaves(
      lag: nat, steps: seq<Step>, i: nat, j: nat, t: nat, before: State, s: State, s': State)
    requires i < j < |steps| && steps[i] == Txt(t, None) && !steps[j].Tick? && steps[j].t == t
    requires Run(lag, steps[..i]) == Some(before) && Run(lag, steps[..j]) == Some(s) &&
             Run(lag, steps[..j + 1]) == Some(s')
    ensures steps[j].StoreIdent? && s'.tables == s.tables
    ensures t in before.threads && before.threads[t].NeedTxt?
    ensures var l := before.threads[t];
            s'.idents == s.idents[l.ip := IdentEntry(l.app, steps[j].stamp + TTL, AppOnly(l.asked, l.app, l.id), s.now)]
  {
    hide *;
    StepOfRun(lag, steps, j, s, s');
    assert steps[..j][..i + 1] == steps[..i + 1] && steps[..j][..i] == steps[..i];
    RunPrefix(lag, steps[..j], i + 1);
    StepOfRun(lag, steps, i, before, Run(lag, steps[..i + 1]).value);
    TxtNeeds(lag, before, t);
    FailedStaysDegraded(lag, steps[..j], i, t, s, before);
    DegradedOnlyStores(lag, s, steps[j], t, before.threads[t]);
  }

  /** A prefix of a run is a run. */
  lemma {:induction false} RunPrefix(lag: nat, steps: seq<Step>, k: nat)
    requires Run(lag, steps).Some? && k <= |steps|
    ensures Run(lag, steps[..k]).Some?
    decreases |steps| - k
  {
    if k == |steps| {
      assert steps[..k] == steps;
    } else {
      RunPrefix(lag, steps, k + 1);
      assert steps[..k + 1][..k] == steps[..k];
    }
  }

  lemma {:induction false} StepOfRun(lag: nat, steps: seq<Step>, j: nat, s: State, s': State)
    requires j < |steps| && Run(lag, steps[..j]) == Some(s) && Run(lag, steps[..j + 1]) == Some(s')
    ensures Enabled(lag, s, steps[j]) && s' == Apply(lag, s, steps[j])
  {
    hide Enabled, Apply;
    assert steps[..j + 1][..j] == steps[..j];
  }

  /** Step m stores an identity for this address. */
  predicate StoresFor(lag: nat, steps: seq<Step>, m: nat, ip: Bytes)
    requires m < |steps|
  {
    && steps[m].StoreIdent? && Run(lag, steps[..m]).Some?
    && var s := Run(lag, steps[..m]).value;
       Enabled(lag, s, steps[m]) && s.threads[steps[m].t].ip == ip
  }

  /** The last step that stores an identity for this address, or -1. */
  function LastStore(lag: nat, steps: seq<Step>, ip: Bytes): (m: int)
    ensures -1 <= m < |steps| && (m >= 0 ==> steps[m].StoreIdent?)
  {
    if steps == [] then -1
    else
      var n := |steps| - 1;
      if StoresFor(lag, steps, n, ip) then n else LastStore(lag, steps[..n], ip)
  }

  /** The step with which a lookup began, or -1. */
  function StartOf(steps: seq<Step>, t: nat): (m: int)
    ensures -1 <= m < |steps|
  {
    if steps == [] then -1
    else
      var n := |steps| - 1;
      if steps[n].Start? && steps[n].t == t then n else StartOf(steps[..n], t)
  }

  /** The lookup that made the last store for an address, as it was just before. */
  predicate StoredBy(lag: nat, steps: seq<Step>, ip: Bytes, l: Lookup, e: IdentEntry) {
    var m := LastStore(lag, steps, ip);
    && m >= 0 && Run(lag, steps[..m]).Some?
    && var s := Run(lag, steps[..m]).value;
       steps[m].t in s.threads && s.threads[steps[m].t] == l && l.Resolved? && e == NewEntry(l, steps[m].stamp, s.now)
  }

  /** The last store left the entry there is; its lookup is over. */
  ghost predicate LastStoreInv(lag: nat, steps: seq<Step>, s: State, ip: Bytes) {
    var m := LastStore(lag, steps, ip);
    && (ip in s.idents <==> m >= 0)
    && (m >= 0 ==> steps[m].t in s.threads && s.threads[steps[m].t].Finished?)
    && (ip in s.idents ==> exists l :: StoredBy(lag, steps, ip, l, s.idents[ip]))
  }

  /** Only a store for an address changes its entry. */
  lemma {:induction false} EntryKept(lag: nat, s: State, step: Step, ip: Bytes)
    requires Enabled(lag, s, step) && !(step.StoreIdent? && s.threads[step.t].ip == ip)
    ensures var s' := Apply(lag, s, step);
            (ip in s'.idents <==> ip in s.idents) && (ip in s.idents ==> s'.idents[ip] == s.idents[ip])
  {
    hide Move, Learnt;
  }

  /** A finished lookup stays finished. */
  lemma {:induction false} FinishedStays(lag: nat, s: State, step: Step, t: nat)
    requires Enabled(lag, s, step) && t in s.threads && s.threads[t].Finished?
    ensures t in Apply(lag, s, step).threads && Apply(lag, s, step).threads[t].Finished?
  {
    assert step.Tick? || step.t != t;
    OtherThread(lag, s, step, t);
    hide Apply, Enabled;
  }

  /** What a store does. */
  lemma {:induction false} StoreStep(lag: nat, s: State, step: Step)
    requires Enabled(lag, s, step) && step.StoreIdent?
    ensures var l, s' := s.threads[step.t], Apply(lag, s, step);
            && l.Resolved? && l.ip in s'.idents && s'.idents[l.ip] == NewEntry(l, step.stamp, s.now)
            && step.t in s'.threads && s'.threads[step.t].Finished?
  {
    hide Learnt;
  }

  lemma {:induction false} LastStoreStep(lag: nat, steps: seq<Step>, ip: Bytes, s0: State, s: State)
    requires steps != [] && Run(lag, steps[..|steps| - 1]) == Some(s0) && Run(lag, steps) == Some(s)
    requires LastStoreInv(lag, steps[..|steps| - 1], s0, ip)
    ensures LastStoreInv(lag, steps, s, ip)
  {
    var n := |steps| - 1;
    assert steps[..n + 1] == steps;
    StepOfRun(lag, steps, n, s0, s);
    hide Run, Apply, Enabled;
    if StoresFor(lag, steps, n, ip) {
      assert LastStore(lag, steps, ip) == n;
      StoreStep(lag, s0, steps[n]);
      assert StoredBy(lag, steps, ip, s0.threads[steps[n].t], s.idents[ip]);
    } else {
      var m := LastStore(lag, steps[..n], ip);
      assert LastStore(lag, steps, ip) == m;
      EntryKept(lag, s0, steps[n], ip);
      hide StoresFor, LastStore;
      if m >= 0 {
        FinishedStays(lag, s0, steps[n], steps[m].t);
        assert steps[..n][..m] == steps[..m];
        var l :| StoredBy(lag, steps[..n], ip, l, s0.idents[ip]);
        assert StoredBy(lag, steps, ip, l, s0.idents[ip]);
      }
    }
  }

  lemma {:induction false} LastStoreHolds(lag: nat, steps: seq<Step>, ip: Bytes, s: State)
    requires Run(lag, steps) == Some(s)
    ensures LastStoreInv(lag, steps, s, ip)
  {
    if steps == [] {
    } else {
      hide LastStoreInv, Enabled, Apply;
      var n := |steps| - 1;
      LastStoreHolds(lag, steps[..n], ip, Run(lag, steps[..n]).value);
      LastStoreStep(lag, steps, ip, Run(lag, steps[..n]).value, s);
    }
  }

  predicate Live(s: State, ip: Bytes) {
    ip in s.idents && s.now < s.idents[ip].expiresAt
  }

  /** A lookup found nothing live for its address: whatever is live there now was stored since it began. */
  predicate MissInv(lag: nat, steps: seq<Step>, s: State, t: nat)
    requires t in s.threads
  {
    var l := s.threads[t];
    var since := LastStore(lag, steps, l.ip) > StartOf(steps, t) >= 0;
    if l.Finished? then StartOf(steps, t) >= 0
    else if l.Loaded? then StartOf(steps, t) >= 0 && (since || (l.ip in s.idents && s.idents[l.ip] == l.entry))
    else StartOf(steps, t) >= 0 && (since || !Live(s, l.ip))
  }

  /** How the two positions change with one step. */
  lemma {:induction false} PositionsStep(lag: nat, steps: seq<Step>, s0: State, ip: Bytes, t: nat)
    requires steps != [] && Run(lag, steps[..|steps| - 1]) == Some(s0) && Enabled(lag, s0, steps[|steps| - 1])
    ensures var n := |steps| - 1;
            var step, init := steps[n], steps[..n];
            && LastStore(lag, steps, ip) ==
               (if step.StoreIdent? && s0.threads[step.t].ip == ip then n else LastStore(lag, init, ip))
            && StartOf(steps, t) == (if step.Start? && step.t == t then n else StartOf(init, t))
  {
    hide Run, Enabled;
  }

  /** Time passes, or another lookup takes a step. */
  lemma {:induction false} MissOther(lag: nat, steps: seq<Step>, s0: State, s: State, t: nat)
    requires steps != [] && Run(lag, steps[..|steps| - 1]) == Some(s0)
    requires Enabled(lag, s0, steps[|steps| - 1]) && s == Apply(lag, s0, steps[|steps| - 1])
    requires t in s0.threads && MissInv(lag, steps[..|steps| - 1], s0, t)
    requires var step := steps[|steps| - 1]; step.Tick? || step.t != t
    ensures t in s.threads && MissInv(lag, steps, s, t)
  {
    var n := |steps| - 1;
    var ip, step := s0.threads[t].ip, steps[n];
    PositionsStep(lag, steps, s0, ip, t);
    OtherThread(lag, s0, step, t);
    assert s.now >= s0.now;
    hide Run, LastStore, StartOf, Enabled, Apply;
    if !(step.StoreIdent? && s0.threads[step.t].ip == ip) {
      EntryKept(lag, s0, step, ip);
    }
  }

  /** Its first step finds an entry or none. */
  lemma {:induction false} MissStart(lag: nat, steps: seq<Step>, s0: State, s: State, t: nat)
    requires steps != [] && Run(lag, steps[..|steps| - 1]) == Some(s0)
    requires Enabled(lag, s0, steps[|steps| - 1]) && s == Apply(lag, s0, steps[|steps| - 1])
    requires steps[|steps| - 1].Start? && steps[|steps| - 1].t == t
    ensures t in s.threads && MissInv(lag, steps, s, t)
  {
    PositionsStep(lag, steps, s0, s.threads[t].ip, t);
    hide Run, LastStore, StartOf;
  }

  /** A later step: its check finds that entry expired or returns it, and the others leave the miss behind them. */
  lemma {:induction false} MissOwn(lag: nat, steps: seq<Step>, s0: State, s: State, t: nat)
    requires steps != [] && Run(lag, steps[..|steps| - 1]) == Some(s0)
    requires Enabled(lag, s0, steps[|steps| - 1]) && s == Apply(lag, s0, steps[|steps| - 1])
    requires t in s0.threads && MissInv(lag, steps[..|steps| - 1], s0, t)
    requires var step := steps[|steps| - 1]; !step.Tick? && !step.Start? && step.t == t
    ensures t in s.threads && MissInv(lag, steps, s, t)
  {
    var step := steps[|steps| - 1];
    var ip := s0.threads[t].ip;
    PositionsStep(lag, steps, s0, ip, t);
    OwnStep(lag, s0, step);
    hide Run, LastStore, StartOf, Apply, Enabled;
    if !step.StoreIdent? {
      EntryKept(lag, s0, step, ip);
    }
  }

  /** What a lookup's own step does to its stage. */
  lemma {:induction false} OwnStep(lag: nat, s: State, step: Step)
    requires Enabled(lag, s, step) && !step.Tick? && !step.Start?
    ensures var l, s' := s.threads[step.t], Apply(lag, s, step);
            && step.t in s'.threads && s'.threads[step.t].ip == l.ip && s'.now == s.now
            && !l.Finished? && !s'.threads[step.t].Loaded?
            && (step.StoreIdent? ==> s'.threads[step.t].Finished?)
            && (l.Loaded? ==> step.CheckEntry? && (s'.threads[step.t].Finished? || s.now >= l.entry.expiresAt))
            && (!l.Loaded? ==> !step.CheckEntry?)
  {
    hide PtrResult, Learnt;
  }

  /** A step of another thread, or of the clock, leaves a thread alone. */
  lemma {:induction false} OtherThread(lag: nat, s: State, step: Step, t: nat)
    requires Enabled(lag, s, step) && (step.Tick? || step.t != t)
    ensures var s' := Apply(lag, s, step);
            && (t in s'.threads <==> t in s.threads)
            && (t in s.threads ==> s'.threads[t] == s.threads[t])
  {
    hide Move, Learnt;
  }

  lemma {:induction false} OwnIsThere(lag: nat, s: State, step: Step)
    requires Enabled(lag, s, step) && !step.Tick? && !step.Start?
    ensures step.t in s.threads
  {
  }

  lemma {:induction false} MissHolds(lag: nat, steps: seq<Step>, s: State, t: nat)
    requires Run(lag, steps) == Some(s) && t in s.threads
    ensures MissInv(lag, steps, s, t)
  {
    if steps == [] {
      assert false;
    } else {
      hide MissInv;
      var n := |steps| - 1;
      var s0 := Run(lag, steps[..n]).value;
      if t in s0.threads {
        MissHolds(lag, steps[..n], s0, t);
      }
      assert steps[..n + 1] == steps;
      StepOfRun(lag, steps, n, s0, s);
      hide Run, Enabled, Apply;
      if steps[n].Tick? || steps[n].t != t {
        OtherThread(lag, s0, steps[n], t);
        MissOther(lag, steps, s0, s, t);
      } else if steps[n].Start? {
        MissStart(lag, steps, s0, s, t);
      } else {
        OwnIsThere(lag, s0, steps[n]);
        MissOwn(lag, steps, s0, s, t);
      }
    }
  }

  /**
    When a lookup without a region is about to store, it replaces a live entry
    with one if and only if another lookup of the same address stored that region
    after this one began and less than a TTL ago. So the region of an address is
    lost early only where two of its lookups overlap.
   */
  lemma {:induction false} RegionLostIff(lag: nat, steps: seq<Step>, s: State, t: nat, stamp: nat)
    requires Run(lag, steps) == Some(s) && Enabled(lag, s, StoreIdent(t, stamp)) && !s.threads[t].source.Region?
    ensures var ip := s.threads[t].ip;
            var m := LastStore(lag, steps, ip);
            && (Live(s, ip) && s.idents[ip].source.Region? <==>
                  && m > StartOf(steps, t) && steps[m].t != t && s.now < steps[m].stamp + TTL
                  && exists l, e :: StoredBy(lag, steps, ip, l, e) && l.source.Region?)
            && Apply(lag, s, StoreIdent(t, stamp)).idents[ip].source == s.threads[t].source
  {
    var ip := s.threads[t].ip;
    LastStoreHolds(lag, steps, ip, s);
    MissHolds(lag, steps, s, t);
    hide Run, LastStore, StartOf;
    if ip in s.idents {
      var l :| StoredBy(lag, steps, ip, l, s.idents[ip]);
    }
  }

  // -------------------------------------------------------- runs that exist

  /** <front>.<id>.vm.<app>.internal */
  function MachineName(front: seq<Bytes>, id: Bytes, app: Bytes): Bytes {
    Join(front + [id, [118, 109], app, [105, 110, 116, 101, 114, 110, 97, 108]])
  }

  /** The name of this machine, with any labels before it and with or without a final dot. */
  predicate Names(name: Bytes, front: seq<Bytes>, id: Bytes, app: Bytes) {
    AllDotFree(front) && (name == MachineName(front, id, app) || name == MachineName(front, id, app) + [DOT])
  }

  /** Exactly the PTR names that are taken apart. */
  lemma {:induction false} PtrExact(name: Bytes, app: Bytes, id: Bytes)
    ensures ParsePtr(name) == Some((app, id)) <==>
            app != [] && DotFree(app) && DotFree(id) && exists front :: Names(name, front, id, app)
  {
    if ParsePtr(name) == Some((app, id)) {
      var front := PtrParts(name, app, id);
    } else if app != [] && DotFree(app) && DotFree(id) && exists front :: Names(name, front, id, app) {
      var front :| Names(name, front, id, app);
      hide ParsePtr, MachineName;
      PtrRoundTrip(front, app, id);
    }
  }

  lemma {:induction false} PtrParts(name: Bytes, app: Bytes, id: Bytes) returns (front: seq<Bytes>)
    requires ParsePtr(name) == Some((app, id))
    ensures app != [] && DotFree(app) && DotFree(id) && Names(name, front, id, app)
  {
    hide *;
    var parts := Split(TrimDot(name));
    PtrShape(name, app, id);
    front := parts[..|parts| - 4];
    LastFour(parts, front, id, app);
    JoinSplit(TrimDot(name));
    NamesIf(name, front, id, app);
  }

  lemma {:induction false} PtrShape(name: Bytes, app: Bytes, id: Bytes)
    requires ParsePtr(name) == Some((app, id))
    ensures var parts := Split(TrimDot(name));
            && |parts| >= 4 && parts[|parts| - 4] == id && parts[|parts| - 3] == VM && parts[|parts| - 2] == app
            && parts[|parts| - 1] == INTERNAL && app != []
  {
    hide Split, TrimDot;
  }

  lemma {:induction false} NamesIf(name: Bytes, front: seq<Bytes>, id: Bytes, app: Bytes)
    requires AllDotFree(front) && TrimDot(name) == Join(front + [id, VM, app, INTERNAL])
    ensures Names(name, front, id, app)
  {
    hide Join;
    assert TrimDot(name) == MachineName(front, id, app);
    assert name == TrimDot(name) || name == TrimDot(name) + [DOT];
    hide MachineName, AllDotFree;
  }

  lemma {:induction false} LastFour(parts: seq<Bytes>, front: seq<Bytes>, id: Bytes, app: Bytes)
    requires |parts| >= 4 && AllDotFree(parts) && front == parts[..|parts| - 4]
    requires parts[|parts| - 4] == id && parts[|parts| - 3] == VM && parts[|parts| - 2] == app
    requires parts[|parts| - 1] == INTERNAL
    ensures parts == front + [id, VM, app, INTERNAL] && AllDotFree(front) && DotFree(id) && DotFree(app)
  {
    hide DotFree;
  }

  /** With or without the final dot such a name gives its app and machine id. */
  lemma {:induction false} PtrRoundTrip(front: seq<Bytes>, app: Bytes, id: Bytes)
    requires AllDotFree(front) && app != [] && DotFree(app) && DotFree(id)
    ensures ParsePtr(MachineName(front, id, app)) == Some((app, id))
    ensures ParsePtr(MachineName(front, id, app) + [DOT]) == Some((app, id))
  {
    var ls := front + [id, VM, app, INTERNAL];
    var name := MachineName(front, id, app);
    assert name == Join(ls);
    SplitOfName(ls, front, id, app);
    hide Split, Join, MachineName;
    assert (name + [DOT])[..|name|] == name;
    assert TrimDot(name) == name && TrimDot(name + [DOT]) == name;
    hide TrimDot;
  }

  lemma {:induction false} SplitOfName(ls: seq<Bytes>, front: seq<Bytes>, id: Bytes, app: Bytes)
    requires ls == front + [id, VM, app, INTERNAL] && AllDotFree(front) && DotFree(app) && DotFree(id)
    ensures Split(Join(ls)) == ls && Join(ls) != [] && Join(ls)[|Join(ls)| - 1] != DOT
  {
    var name, init := Join(ls), front + [id, VM, app];
    assert ls == init + [INTERNAL];
    JoinSnoc(init, INTERNAL);
    assert name[|name| - 1] == INTERNAL[7] == 108;
    assert AllDotFree(ls) by { DotFreeConcat(front, [id, VM, app, INTERNAL]); }
    hide Join, Split;
    JoinSplit(name);
    JoinInjective(Split(name), ls);
  }

  /** The steps lead to a state that is b, its past aside. */
  predicate Reaches(lag: nat, steps: seq<Step>, b: State) {
    Run(lag, steps).Some? && Run(lag, steps).value.(past := {}) == b
  }

  /** What the code does never depends on the past. */
  lemma {:induction false} Go(lag: nat, steps: seq<Step>, b: State, step: Step, b': State)
    requires Reaches(lag, steps, b) && Enabled(lag, b, step) && Apply(lag, b, step).(past := {}) == b'
    ensures Reaches(lag, steps + [step], b')
  {
    assert (steps + [step])[..|steps|] == steps;
    hide PtrResult, WithRegion;
  }

  lemma {:induction false} ReachesNothing(lag: nat)
    ensures Reaches(lag, [], EMPTY)
  {
  }

  /** The PTR answer of the machine `id` of `app`. */
  function Answer(app: Bytes, id: Bytes): Option<Bytes> {
    Some(MachineName([], id, app))
  }

  lemma {:induction false} AnswerParses(app: Bytes, id: Bytes)
    requires app != [] && DotFree(app) && DotFree(id)
    ensures PtrResult(Answer(app, id)) == Some((app, id))
  {
    hide ParsePtr, MachineName;
    PtrRoundTrip([], app, id);
  }

  /** A lookup asked for a region, up to its PTR answer. */
  lemma {:induction false} Asks(lag: nat, steps: seq<Step>, b: State, t: nat, ip: Bytes, app: Bytes, id: Bytes)
    returns (more: seq<Step>)
    requires Reaches(lag, steps, b) && t !in b.threads && ip !in b.idents
    requires app != [] && DotFree(app) && DotFree(id)
    ensures Reaches(lag, more, b.(threads := b.threads[t := NeedRegion(ip, app, id, b.now)]))
  {
    AnswerParses(app, id);
    hide PtrResult, Reaches, Answer;
    var name := Answer(app, id);
    var b1 := b.(threads := b.threads[t := NeedPtr(ip)]);
    more := steps + [Start(t, ip)];
    Go(lag, steps, b, Start(t, ip), b1) by { hide PtrResult; ReachesBare(lag, steps, b); }
    var b2 := b.(threads := b.threads[t := NeedRegion(ip, app, id, b.now)]);
    assert b1.threads[t := b2.threads[t]] == b2.threads;
    Go(lag, more, b1, Ptr(t, name), b2) by { ReachesBare(lag, more, b1); }
    more := more + [Ptr(t, name)];
  }

  lemma {:induction false} ReachesBare(lag: nat, steps: seq<Step>, b: State)
    requires Reaches(lag, steps, b)
    ensures b.past == {}
  {
  }

  // ------------------------------------------------ one lookup by itself

  /** `lookupFlyRegion` as one call: a fresh table that knows the machine answers, else the TXT records do. */
  function RegionNow(b: State, app: Bytes, id: Bytes, txt: Option<map<Bytes, Bytes>>): Bytes {
    if TableKnows(b, app, id) then RegionIn(b.tables[app].byId, id)
    else if txt.None? then []
    else RegionIn(txt.value, id)
  }

  predicate TableKnows(b: State, app: Bytes, id: Bytes) {
    app in b.tables && b.now < b.tables[app].expiresAt && RegionIn(b.tables[app].byId, id) != []
  }

  /** The tables after it. */
  function TablesNow(b: State, app: Bytes, id: Bytes, txt: Option<map<Bytes, Bytes>>): map<Bytes, Table> {
    if TableKnows(b, app, id) || txt.None? then b.tables
    else b.tables[app := Table(txt.value, b.now + TTL, b.now)]
  }

  /** `resolveFlyIdent` as one call: "fly-unknown", the app, or the region, a dot and the app. */
  function ResolveNow(b: State, ptr: Option<Bytes>, txt: Option<map<Bytes, Bytes>>): Bytes {
    match PtrResult(ptr)
    case None => [102, 108, 121, 45, 117, 110, 107, 110, 111, 119, 110]
    case Some((app, id)) =>
      var region := RegionNow(b, app, id, txt);
      if region == [] then app else region + [46] + app
  }

  function Put(b: State, t: nat, l: Lookup): State {
    b.(threads := b.threads[t := l])
  }

  lemma {:induction false} PutStep(lag: nat, steps: seq<Step>, b: State, t: nat, l: Lookup, step: Step, b': State,
      l': Lookup)
    requires Reaches(lag, steps, Put(b, t, l)) && !step.Tick? && !step.Start? && step.t == t &&
             Enabled(lag, Put(b, t, l), step)
    requires b'.threads == b.threads && b'.past == {} && Move(Put(b, t, l), step) == l'
    requires Apply(lag, Put(b, t, l), step).(threads := b.threads, past := {}) == b'
    ensures Reaches(lag, steps + [step], Put(b', t, l'))
  {
    assert b.threads[t := l][t := l'] == b.threads[t := l'];
    Go(lag, steps, Put(b, t, l), step, Put(b', t, l')) by {
      hide Move, Learnt, Reaches;
    }
  }

  /** The first cache answers, or a PTR query is needed. */
  lemma {:induction false} AloneStart(lag: nat, steps: seq<Step>, b: State, t: nat, ip: Bytes)
    returns (more: seq<Step>, l: Lookup)
    requires Reaches(lag, steps, b) && t !in b.threads
    ensures Reaches(lag, more, Put(b, t, l))
    ensures if Live(b, ip) then l.Finished? && l.ident == b.idents[ip].ident && l.at == b.now else l == NeedPtr(ip)
  {
    ReachesBare(lag, steps, b);
    l := if ip in b.idents then Loaded(ip, b.idents[ip]) else NeedPtr(ip);
    Go(lag, steps, b, Start(t, ip), Put(b, t, l)) by { hide Reaches; }
    more := steps + [Start(t, ip)];
    if ip in b.idents {
      var e := b.idents[ip];
      var l' := if b.now < e.expiresAt then Finished(ip, e.ident, e.source, Some(e), b.now) else NeedPtr(ip);
      hide Reaches;
      PutStep(lag, more, b, t, l, CheckEntry(t), b, l');
      l, more := l', more + [CheckEntry(t)];
    }
  }

  lemma {:induction false} AlonePtr(lag: nat, steps: seq<Step>, b: State, t: nat, ip: Bytes, ptr: Option<Bytes>)
    returns (more: seq<Step>, l: Lookup)
    requires Reaches(lag, steps, Put(b, t, NeedPtr(ip)))
    ensures Reaches(lag, more, Put(b, t, l))
    ensures match PtrResult(ptr)
            case None => l == Resolved(ip, FLY_UNKNOWN, Unknown(b.now), b.now)
            case Some((app, id)) => l == NeedRegion(ip, app, id, b.now)
  {
    ReachesBare(lag, steps, Put(b, t, NeedPtr(ip)));
    hide Reaches, PtrResult;
    l := Move(Put(b, t, NeedPtr(ip)), Ptr(t, ptr));
    PutStep(lag, steps, b, t, NeedPtr(ip), Ptr(t, ptr), b, l);
    more := steps + [Ptr(t, ptr)];
  }

  /** The second cache answers, or a TXT query is needed. */
  lemma {:induction false} AloneTable(lag: nat, steps: seq<Step>, b: State, t: nat, ip: Bytes, app: Bytes, id: Bytes)
    returns (more: seq<Step>, l: Lookup)
    requires Reaches(lag, steps, Put(b, t, NeedRegion(ip, app, id, b.now)))
    ensures Reaches(lag, more, Put(b, t, l))
    ensures if TableKnows(b, app, id)
            then l.Resolved? && l.ip == ip && l.since == b.now &&
              l.ident == RegionIn(b.tables[app].byId, id) + [46] + app
            else l == NeedTxt(ip, app, id, b.now)
  {
    var l0 := NeedRegion(ip, app, id, b.now);
    ReachesBare(lag, steps, Put(b, t, l0));
    hide Reaches;
    l := Move(Put(b, t, l0), LoadTable(t));
    PutStep(lag, steps, b, t, l0, LoadTable(t), b, l);
    more := steps + [LoadTable(t)];
    if app in b.tables {
      var l' := Move(Put(b, t, l), CheckTable(t));
      PutStep(lag, more, b, t, l, CheckTable(t), b, l');
      l, more := l', more + [CheckTable(t)];
    }
  }

  lemma {:induction false} AloneTxt(
      lag: nat, steps: seq<Step>, b: State, t: nat, ip: Bytes, app: Bytes, id: Bytes, txt: Option<map<Bytes, Bytes>>)
    returns (more: seq<Step>, b': State, l: Lookup)
    requires Reaches(lag, steps, Put(b, t, NeedTxt(ip, app, id, b.now))) && !TableKnows(b, app, id)
    ensures b' == b.(tables := TablesNow(b, app, id, txt)) && Reaches(lag, more, Put(b', t, l))
    ensures var region := RegionNow(b, app, id, txt);
            l.Resolved? && l.ip == ip && l.since == b.now && l.ident == if region == [] then app
              else region + [46] + app
  {
    var l0 := NeedTxt(ip, app, id, b.now);
    ReachesBare(lag, steps, Put(b, t, l0));
    hide Reaches;
    l := Move(Put(b, t, l0), Txt(t, txt));
    PutStep(lag, steps, b, t, l0, Txt(t, txt), b, l);
    more, b' := steps + [Txt(t, txt)], b;
    hide Put;
    if txt.Some? {
      assert l == GotTxt(ip, app, id, b.now, txt.value, b.now);
      more, b', l := AloneStoreTable(lag, more, b, t, ip, app, id, txt.value);
    }
  }

  lemma {:induction false} AloneStoreTable(
      lag: nat, steps: seq<Step>, b: State, t: nat, ip: Bytes, app: Bytes, id: Bytes, byId: map<Bytes, Bytes>)
    returns (more: seq<Step>, b': State, l: Lookup)
    requires Reaches(lag, steps, Put(b, t, GotTxt(ip, app, id, b.now, byId, b.now)))
    ensures b' == b.(tables := b.tables[app := Table(byId, b.now + TTL, b.now)]) && Reaches(lag, more, Put(b', t, l))
    ensures var region := RegionIn(byId, id);
            && l.Resolved? && l.ip == ip && l.since == b.now
            && l.ident == if region == [] then app else region + [46] + app
  {
    var l0 := GotTxt(ip, app, id, b.now, byId, b.now);
    ReachesBare(lag, steps, Put(b, t, l0));
    hide Reaches;
    b' := b.(tables := b.tables[app := Table(byId, b.now + TTL, b.now)]);
    l := Move(Put(b, t, l0), StoreTable(t, b.now));
    PutStep(lag, steps, b, t, l0, StoreTable(t, b.now), b', l);
    more := steps + [StoreTable(t, b.now)];
  }

  lemma {:induction false} AloneStore(lag: nat, steps: seq<Step>, b: State, t: nat, l: Lookup)
    returns (more: seq<Step>, b': State, l': Lookup)
    requires Reaches(lag, steps, Put(b, t, l)) && l.Resolved? && l.since == b.now
    ensures b' == b.(idents := b.idents[l.ip := IdentEntry(l.ident, b.now + TTL, l.source, b.now)])
    ensures Reaches(lag, more, Put(b', t, l')) && l' == Finished(l.ip, l.ident, l.source, None, b.now)
  {
    ReachesBare(lag, steps, Put(b, t, l));
    hide Reaches;
    b' := b.(idents := b.idents[l.ip := IdentEntry(l.ident, b.now + TTL, l.source, b.now)]);
    l' := Finished(l.ip, l.ident, l.source, None, b.now);
    PutStep(lag, steps, b, t, l, StoreIdent(t, b.now), b', l');
    more := steps + [StoreIdent(t, b.now)];
  }

  /**
    A lookup that runs by itself, from any state, does what `lookupFlyIdent` says:
    a live entry is returned and nothing changes; otherwise the identity is
    resolved from the PTR and TXT answers and the tables, stored for a TTL and
    returned.
   */
  lemma {:induction false} LookupAlone(
      lag: nat, steps: seq<Step>, b: State, t: nat, ip: Bytes, ptr: Option<Bytes>, txt: Option<map<Bytes, Bytes>>)
    returns (more: seq<Step>, b': State, l: Lookup)
    requires Reaches(lag, steps, b) && t !in b.threads
    ensures Reaches(lag, more, Put(b', t, l)) && l.Finished? && l.at == b.now && b'.threads == b.threads
    ensures Live(b, ip) ==> l.ident == b.idents[ip].ident && b' == b
    ensures !Live(b, ip) ==>
              && l.ident == ResolveNow(b, ptr, txt)
              && b'.idents == b.idents[ip := IdentEntry(l.ident, b.now + TTL, l.source, b.now)]
              && b'.tables == match PtrResult(ptr) case None => b.tables case Some((app, id)) => TablesNow(b, app, id,
                txt)
  {
    hide Reaches, TableKnows, RegionNow, TablesNow, Put;
    more, l := AloneStart(lag, steps, b, t, ip);
    b' := b;
    if !Live(b, ip) {
      more, l := AlonePtr(lag, more, b, t, ip, ptr);
      if PtrResult(ptr).Some? {
        var (app, id) := PtrResult(ptr).value;
        more, l := AloneTable(lag, more, b, t, ip, app, id);
        KnownRegion(b, app, id, txt);
        if !TableKnows(b, app, id) {
          more, b', l := AloneTxt(lag, more, b, t, ip, app, id, txt);
        }
      }
      more, b', l := AloneStore(lag, more, b', t, l);
    }
  }

  lemma {:induction false} KnownRegion(b: State, app: Bytes, id: Bytes, txt: Option<map<Bytes, Bytes>>)
    ensures TableKnows(b, app, id) ==>
              && RegionNow(b, app, id, txt) == RegionIn(b.tables[app].byId, id) != [] &&
                TablesNow(b, app, id, txt) == b.tables
  {
  }

  /** The table a report leaves, and the identity it gives. */
  function Fetched(lag: nat, asked: nat, id: Bytes, region: Bytes): Table {
    Table(map[id := region], asked + lag + TTL, asked)
  }

  function FetchedSource(lag: nat, asked: nat, app: Bytes, id: Bytes, region: Bytes): Source {
    Region(asked, app, id, Fetched(lag, asked, id, region), None)
  }

  /** The state once lookup t has fetched its region and stored it as late as it may. */
  function AfterFetch(lag: nat, b: State, t: nat, ip: Bytes, app: Bytes, id: Bytes, region: Bytes): State {
    var ident, source, now := region + [DOT] + app, FetchedSource(lag, b.now, app, id, region), b.now + lag;
    State(now, b.idents[ip := IdentEntry(ident, now + TTL, source, now)], b.tables[app := source.table],
          b.threads[t := Finished(ip, ident, source, None, now)], {})
  }

  lemma {:induction false} Fetches(
      lag: nat, steps: seq<Step>, b: State, t: nat, ip: Bytes, app: Bytes, id: Bytes, region: Bytes)
        returns (more: seq<Step>)
    requires Reaches(lag, steps, b) && t in b.threads && b.threads[t] == NeedTxt(ip, app, id, b.now) && region != []
    requires forall u :: u in b.threads && u != t ==> MayWait(lag, b.threads[u], b.now + lag)
    ensures Reaches(lag, more, AfterFetch(lag, b, t, ip, app, id, region))
  {
    more := Hears(lag, steps, b, t, region);
    hide Reaches, Enabled, Apply, MayWait;
    var got := GotTxt(ip, app, id, b.now, map[id := region], b.now);
    var b1 := b.(now := b.now + lag, threads := b.threads[t := got]);
    more := StoresBoth(lag, more, b1, t, region);
    var done := AfterFetch(lag, b, t, ip, app, id, region);
    assert b1.threads[t := done.threads[t]] == done.threads;
  }

  /** The report arrives, and the lookup sits on it. */
  lemma {:induction false} Hears(lag: nat, steps: seq<Step>, b: State, t: nat, region: Bytes) returns (more: seq<Step>)
    requires Reaches(lag, steps, b) && t in b.threads && b.threads[t].NeedTxt? && b.threads[t].asked == b.now
    requires forall u :: u in b.threads && u != t ==> MayWait(lag, b.threads[u], b.now + lag)
    ensures var l := b.threads[t];
            var got := GotTxt(l.ip, l.app, l.id, l.asked, map[l.id := region], b.now);
            Reaches(lag, more, b.(now := b.now + lag, threads := b.threads[t := got]))
  {
    ReachesBare(lag, steps, b);
    hide Reaches;
    var l := b.threads[t];
    var byId := map[l.id := region];
    var b1 := b.(threads := b.threads[t := GotTxt(l.ip, l.app, l.id, l.asked, byId, b.now)]);
    Go(lag, steps, b, Txt(t, Some(byId)), b1);
    more := steps + [Txt(t, Some(byId))];
    Go(lag, more, b1, Tick(lag), b1.(now := b.now + lag));
    more := more + [Tick(lag)];
  }

  /** The two stores at the end of a lookup that fetched. */
  lemma {:induction false} StoresBoth(lag: nat, steps: seq<Step>, b: State, t: nat, region: Bytes)
    returns (more: seq<Step>)
    requires Reaches(lag, steps, b) && t in b.threads && b.threads[t].GotTxt? && region != []
    requires var l := b.threads[t]; l.byId == map[l.id := region] && l.asked == l.at && b.now == l.at + lag
    ensures var l := b.threads[t];
            var ident, source := region + [DOT] + l.app, FetchedSource(lag, l.at, l.app, l.id, region);
            Reaches(lag, more, State(
              b.now, b.idents[l.ip := IdentEntry(ident, b.now + TTL, source, b.now)], b.tables[l.app := source.table],
              b.threads[t := Finished(l.ip, ident, source, None, b.now)], {}))
  {
    ReachesBare(lag, steps, b);
    hide Reaches;
    var l := b.threads[t];
    var ident, source := region + [DOT] + l.app, FetchedSource(lag, l.at, l.app, l.id, region);
    assert RegionIn(l.byId, l.id) == region;
    var b1 := b.(tables := b.tables[l.app := source.table],
        threads := b.threads[t := Resolved(l.ip, ident, source, b.now)]);
    Go(lag, steps, b, StoreTable(t, b.now), b1);
    more := steps + [StoreTable(t, b.now)];
    var done := Finished(l.ip, ident, source, None, b.now);
    assert b1.threads[t := done] == b.threads[t := done];
    Go(lag, more, b1, StoreIdent(t, b.now),
       State(b.now, b.idents[l.ip := IdentEntry(ident, b.now + TTL, source, b.now)], b1.tables, b.threads[t := done],
         {}));
    more := more + [StoreIdent(t, b.now)];
  }

  /** A first lookup, from the empty caches. */
  lemma {:induction false} FirstReport(lag: nat, ip: Bytes, app: Bytes, id: Bytes, region: Bytes)
    returns (steps: seq<Step>)
    requires app != [] && DotFree(app) && DotFree(id) && region != []
    ensures Reaches(lag, steps, AfterFetch(lag, EMPTY, 0, ip, app, id, region))
  {
    ReachesNothing(lag);
    hide Reaches;
    steps := Asks(lag, [], EMPTY, 0, ip, app, id);
    var b1 := EMPTY.(threads := map[0 := NeedRegion(ip, app, id, 0)]);
    var b2 := EMPTY.(threads := map[0 := NeedTxt(ip, app, id, 0)]);
    assert EMPTY.threads[0 := NeedRegion(ip, app, id, 0)] == b1.threads;
    assert b1.threads[0 := NeedTxt(ip, app, id, 0)] == b2.threads;
    Go(lag, steps, b1, LoadTable(0), b2);
    steps := Fetches(lag, steps + [LoadTable(0)], b2, 0, ip, app, id, region);
    assert AfterFetch(lag, b2, 0, ip, app, id, region) == AfterFetch(lag, EMPTY, 0, ip, app, id, region);
  }

  /** The identity of a second address of the machine, read out of the table at its last moment. */
  function SecondSource(lag: nat, app: Bytes, id: Bytes, region: Bytes): Source {
    Region(lag + TTL - 1, app, id, Fetched(lag, 0, id, region), Some(lag + TTL - 1))
  }

  /** Just before the table expires, a second address of the same machine is asked about. */
  lemma {:induction false} SecondReport(lag: nat, ip: Bytes, other: Bytes, app: Bytes, id: Bytes, region: Bytes)
    returns (steps: seq<Step>, b: State)
    requires ip != other && app != [] && DotFree(app) && DotFree(id) && region != []
    ensures Reaches(lag, steps, b) && b.threads.Keys == {0, 1} && b.threads[0].Finished?
    ensures b.now == lag + TTL - 1
    ensures b.threads[1] == Resolved(other, region + [DOT] + app, SecondSource(lag, app, id, region), lag + TTL - 1)
  {
    var b0 := AfterFetch(lag, EMPTY, 0, ip, app, id, region);
    steps := FirstReport(lag, ip, app, id, region);
    hide Reaches;
    var b1 := b0.(now := lag + TTL - 1);
    Go(lag, steps, b0, Tick(TTL - 1), b1);
    steps := steps + [Tick(TTL - 1)];
    steps := Asks(lag, steps, b1, 1, other, app, id);
    steps, b := ReadsTable(lag, steps, b1, other, app, id, region);
  }

  lemma {:induction false} ReadsTable(lag: nat, more: seq<Step>, b1: State, other: Bytes, app: Bytes, id: Bytes,
      region: Bytes)
    returns (steps: seq<Step>, b: State)
    requires Reaches(lag, more, b1.(threads := b1.threads[1 := NeedRegion(other, app, id, b1.now)]))
    requires b1.now == lag + TTL - 1 && region != [] && app in b1.tables &&
             b1.tables[app] == Fetched(lag, 0, id, region)
    requires b1.threads.Keys == {0} && b1.threads[0].Finished?
    ensures Reaches(lag, steps, b) && b.threads.Keys == {0, 1} && b.threads[0].Finished?
    ensures b.now == lag + TTL - 1
    ensures b.threads[1] == Resolved(other, region + [DOT] + app, SecondSource(lag, app, id, region), lag + TTL - 1)
  {
    ReachesBare(lag, more, b1.(threads := b1.threads[1 := NeedRegion(other, app, id, b1.now)]));
    hide Reaches;
    steps := more;
    var table := Fetched(lag, 0, id, region);
    var b2 := b1.(threads := b1.threads[1 := NeedRegion(other, app, id, b1.now)]);
    var b3 := b1.(threads := b1.threads[1 := HasTable(other, app, id, b1.now, table)]);
    assert b2.threads[1 := b3.threads[1]] == b3.threads;
    Go(lag, steps, b2, LoadTable(1), b3);
    steps := steps + [LoadTable(1)];
    assert RegionIn(table.byId, id) == region;
    b := b1.(threads := b1.threads[1 := Resolved(other, region + [DOT] + app, SecondSource(lag, app, id, region),
      b1.now)]);
    assert b3.threads[1 := b.threads[1]] == b.threads;
    Go(lag, steps, b3, CheckTable(1), b);
    steps := steps + [CheckTable(1)];
  }

  /**
    The two caches really stack: for every lag some run returns a region that was
    reported 2 * (TTL + lag) - 2 before, so the bound of ReturnedIdentity is the
    least that holds of every run.
   */
  lemma {:induction false} BoundIsSharp(lag: nat, ip: Bytes, other: Bytes, app: Bytes, id: Bytes, region: Bytes)
    returns (steps: seq<Step>, b: State)
    requires ip != other && app != [] && DotFree(app) && DotFree(id) && region != []
    ensures Reaches(lag, steps, b) && 2 in b.threads && b.threads[2].Finished? && b.threads[2].ip == other
    ensures var l := b.threads[2]; l.source.Region? && l.at + 2 == l.source.table.reported + 2 * TTL + 2 * lag
  {
    var b1;
    steps, b1 := SecondReport(lag, ip, other, app, id, region);
    ReachesBare(lag, steps, b1);
    hide Reaches;
    var l := b1.threads[1];
    var stamp := b1.now + lag;
    Go(lag, steps, b1, Tick(lag), b1.(now := stamp));
    steps := steps + [Tick(lag)];
    var e := IdentEntry(l.ident, stamp + TTL, l.source, stamp);
    var b2 := State(stamp, b1.idents[other := e], b1.tables,
        b1.threads[1 := Finished(other, l.ident, l.source, None, stamp)], {});
    Go(lag, steps, b1.(now := stamp), StoreIdent(1, stamp), b2);
    steps := steps + [StoreIdent(1, stamp)];
    steps, b := ServedLast(lag, steps, b2, other, e);
  }

  /** An entry is served once more at the last moment before it expires. */
  lemma {:induction false} ServedLast(lag: nat, steps: seq<Step>, b: State, ip: Bytes, e: IdentEntry)
    returns (more: seq<Step>, b': State)
    requires Reaches(lag, steps, b) && ip in b.idents && b.idents[ip] == e && e.expiresAt == b.now + TTL
    requires b.threads.Keys == {0, 1} && b.threads[0].Finished? && b.threads[1].Finished?
    ensures Reaches(lag, more, b') && 2 in b'.threads
    ensures b'.threads[2] == Finished(ip, e.ident, e.source, Some(e), e.expiresAt - 1)
  {
    ReachesBare(lag, steps, b);
    hide Reaches;
    var b1 := b.(now := e.expiresAt - 1);
    Go(lag, steps, b, Tick(TTL - 1), b1);
    more := steps + [Tick(TTL - 1)];
    var b2 := b1.(threads := b1.threads[2 := Loaded(ip, e)]);
    Go(lag, more, b1, Start(2, ip), b2);
    more := more + [Start(2, ip)];
    b' := b1.(threads := b2.threads[2 := Finished(ip, e.ident, e.source, Some(e), e.expiresAt - 1)]);
    Go(lag, more, b2, CheckEntry(2), b');
    more := more + [CheckEntry(2)];
  }

  /** Two lookups of one address, both past the empty table cache. */
  lemma {:induction false} TwoAsk(ip: Bytes, app: Bytes, id: Bytes) returns (steps: seq<Step>)
    requires app != [] && DotFree(app) && DotFree(id)
    ensures Reaches(0, steps, EMPTY.(threads := map[0 := NeedTxt(ip, app, id, 0), 1 := NeedTxt(ip, app, id, 0)]))
  {
    ReachesNothing(0);
    hide Reaches;
    var asks, needs := NeedRegion(ip, app, id, 0), NeedTxt(ip, app, id, 0);
    steps := Asks(0, [], EMPTY, 0, ip, app, id);
    var b1 := EMPTY.(threads := map[0 := asks]);
    assert EMPTY.threads[0 := asks] == b1.threads;
    steps := Asks(0, steps, b1, 1, ip, app, id);
    var b2 := EMPTY.(threads := map[0 := asks, 1 := asks]);
    assert b1.threads[1 := asks] == b2.threads;
    var b3 := EMPTY.(threads := map[0 := needs, 1 := asks]);
    assert b2.threads[0 := needs] == b3.threads;
    Go(0, steps, b2, LoadTable(0), b3);
    steps := steps + [LoadTable(0)];
    var b4 := EMPTY.(threads := map[0 := needs, 1 := needs]);
    assert b3.threads[1 := needs] == b4.threads;
    Go(0, steps, b3, LoadTable(1), b4);
    steps := steps + [LoadTable(1)];
  }

  /**
    A failed lookup can cost a region that is still good: of two lookups of one
    address at once the first stores its region with a full TTL, the other's TXT
    query fails, and its store leaves the bare app in place of the live entry.
   */
  lemma {:induction false} LiveRegionIsLost(ip: Bytes, app: Bytes, id: Bytes, region: Bytes)
    returns (steps: seq<Step>, b: State, b': State)
    requires app != [] && DotFree(app) && DotFree(id) && region != []
    ensures Reaches(0, steps + [Txt(1, None)], b) && Reaches(0, steps + [Txt(1, None)] + [StoreIdent(1, 0)], b')
    ensures Live(b, ip) && b.idents[ip].ident == region + [DOT] + app && b.idents[ip].source.Region?
    ensures ip in b'.idents && b'.idents[ip].ident == app && b'.now == b.now
  {
    steps := TwoAsk(ip, app, id);
    var b0 := EMPTY.(threads := map[0 := NeedTxt(ip, app, id, 0), 1 := NeedTxt(ip, app, id, 0)]);
    hide Reaches;
    steps := Fetches(0, steps, b0, 0, ip, app, id, region);
    var b1 := AfterFetch(0, b0, 0, ip, app, id, region);
    var source := AppOnly(0, app, id);
    b := b1.(threads := b1.threads[1 := Resolved(ip, app, source, 0)]);
    Go(0, steps, b1, Txt(1, None), b);
    b' := b1.(idents := b1.idents[ip := IdentEntry(app, TTL, source, 0)],
              threads := b.threads[1 := Finished(ip, app, source, None, 0)]);
    Go(0, steps + [Txt(1, None)], b, StoreIdent(1, 0), b');
  }
}
