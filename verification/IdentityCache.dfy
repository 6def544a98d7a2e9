/**
  The two stacked identity caches (`lookupFlyIdent`, `resolveFlyIdent`,
  `lookupFlyRegion`): addresses to identities, and apps to tables of regions.

  Any number of lookups run at once. A lookup is a thread that moves from one
  access of a cache, clock or resolver to the next; a run is any interleaving of
  such moves and of time passing. The state also remembers what the resolver ever
  said and what was ever stored, and every identity carries the answers it rests
  on.

  `lag` bounds the time from a lookup's PTR answer to its store; with lag 0 those
  steps are instantaneous.
 */
module IdentityCache {
  import opened Octets
  import opened Wrappers
  import opened DnsQuestion
  import opened DnsAlias

  /** flyCacheTTL, in nanoseconds */
  const TTL: nat := 300_000_000_000

  const FLY_UNKNOWN: Bytes := [102, 108, 121, 45, 117, 110, 107, 110, 111, 119, 110]
  const INTERNAL: Bytes := [105, 110, 116, 101, 114, 110, 97, 108]
  const VM: Bytes := [118, 109]

  datatype Table = Table(byId: map<Bytes, Bytes>, expiresAt: nat, reported: nat)

  /**
    What an identity rests on: the PTR answer (or failure) at time `asked`, and for
    a region the table it came from, with the time that table was read out of the
    cache unless the lookup fetched it itself.
   */
  datatype Source =
    | Unknown(asked: nat)
    | AppOnly(asked: nat, app: Bytes, id: Bytes)
    | Region(asked: nat, app: Bytes, id: Bytes, table: Table, readAt: Option<nat>)

  datatype IdentEntry = IdentEntry(ident: Bytes, expiresAt: nat, source: Source, storedAt: nat)

  /** What has happened: answers of the resolver, and stores into the two caches. */
  datatype Fact =
    | PtrSaid(ip: Bytes, app: Bytes, id: Bytes, at: nat)
    | PtrFailed(ip: Bytes, at: nat)
    | TxtSaid(app: Bytes, byId: map<Bytes, Bytes>, at: nat)
    | TableStored(app: Bytes, table: Table)
    | EntryStored(ip: Bytes, entry: IdentEntry)

  datatype Lookup =
    | Loaded(ip: Bytes, entry: IdentEntry)
    | NeedPtr(ip: Bytes)
    | NeedRegion(ip: Bytes, app: Bytes, id: Bytes, asked: nat)
    | HasTable(ip: Bytes, app: Bytes, id: Bytes, asked: nat, table: Table)
    | NeedTxt(ip: Bytes, app: Bytes, id: Bytes, asked: nat)
    | GotTxt(ip: Bytes, app: Bytes, id: Bytes, asked: nat, byId: map<Bytes, Bytes>, at: nat)
    | Resolved(ip: Bytes, ident: Bytes, source: Source, since: nat)
    | Finished(ip: Bytes, ident: Bytes, source: Source, from: Option<IdentEntry>, at: nat)

  datatype State = State(
    now: nat, idents: map<Bytes, IdentEntry>, tables: map<Bytes, Table>, threads: map<nat, Lookup>, past: set<Fact>)

  datatype Step =
    | Start(t: nat, ip: Bytes)                      // loads the entry of the address, if any
    | CheckEntry(t: nat)                            // compares its expiry with the clock
    | Ptr(t: nat, name: Option<Bytes>)              // None: an error or no names
    | LoadTable(t: nat)
    | CheckTable(t: nat)
    | Txt(t: nat, byId: Option<map<Bytes, Bytes>>)  // None: an error
    | StoreTable(t: nat, stamp: nat)                // stamp: the clock, read at some point before the store
    | StoreIdent(t: nat, stamp: nat)
    | Tick(elapsed: nat)

  const EMPTY: State := State(0, map[], map[], map[], {})

  /** The machine id and app in a name <id>.vm.<app>.internal with an optional final dot. */
  function ParsePtr(name: Bytes): (r: Option<(Bytes, Bytes)>)
    ensures r.Some? ==> r.value.0 != []
  {
    var parts := Split(TrimDot(name));
    var n := |parts|;
    if n < 4 || parts[n - 1] != INTERNAL || parts[n - 3] != VM || parts[n - 2] == [] then None
    else Some((parts[n - 2], parts[n - 4]))
  }

  /** strings.TrimSuffix(name, ".") */
  function TrimDot(name: Bytes): Bytes {
    if name != [] && name[|name| - 1] == DOT then name[..|name| - 1] else name
  }

  function PtrResult(name: Option<Bytes>): Option<(Bytes, Bytes)> {
    if name.None? then None else ParsePtr(name.value)
  }

  function RegionIn(byId: map<Bytes, Bytes>, id: Bytes): Bytes {
    if id in byId then byId[id] else []
  }

  /** An app with its region, or alone if there is none. */
  function WithRegion(ip: Bytes, app: Bytes, id: Bytes, asked: nat, table: Table, readAt: Option<nat>,
      now: nat): Lookup {
    var region := RegionIn(table.byId, id);
    if region == [] then Resolved(ip, app, AppOnly(asked, app, id), now)
    else Resolved(ip, region + [DOT] + app, Region(asked, app, id, table, readAt), now)
  }

  /** What the two stores write. */
  function NewTable(l: Lookup, stamp: nat): Table
    requires l.GotTxt?
  {
    Table(l.byId, stamp + TTL, l.at)
  }

  function NewEntry(l: Lookup, stamp: nat, now: nat): IdentEntry
    requires l.Resolved?
  {
    IdentEntry(l.ident, stamp + TTL, l.source, now)
  }

  /** The time by which a thread must have moved on. */
  predicate MayWait(lag: nat, l: Lookup, until: nat) {
    match l
    case Loaded(_, _) => true
    case NeedPtr(_) => true
    case Finished(_, _, _, _, _) => true
    case Resolved(_, _, source, _) => until <= source.asked + lag
    case _ => until <= l.asked + lag
  }

  predicate Enabled(lag: nat, s: State, step: Step) {
    match step
    case Start(t, _) => t !in s.threads
    case CheckEntry(t) => t in s.threads && s.threads[t].Loaded?
    case Ptr(t, _) => t in s.threads && s.threads[t].NeedPtr?
    case LoadTable(t) => t in s.threads && s.threads[t].NeedRegion?
    case CheckTable(t) => t in s.threads && s.threads[t].HasTable?
    case Txt(t, _) => t in s.threads && s.threads[t].NeedTxt?
    case StoreTable(t, stamp) => t in s.threads && s.threads[t].GotTxt? && s.threads[t].at <= stamp <= s.now
    case StoreIdent(t, stamp) => t in s.threads && s.threads[t].Resolved? && s.threads[t].since <= stamp <= s.now
    case Tick(d) => forall t :: t in s.threads ==> MayWait(lag, s.threads[t], s.now + d)
  }

  /** What a thread becomes by a step of its own. */
  function Move(s: State, step: Step): Lookup
    requires !step.Tick? && Enabled(0, s, step)
  {
    match step
    case Start(_, ip) =>
      if ip in s.idents then Loaded(ip, s.idents[ip]) else NeedPtr(ip)
    case CheckEntry(t) =>
      var l := s.threads[t];
      if s.now < l.entry.expiresAt then Finished(l.ip, l.entry.ident, l.entry.source, Some(l.entry), s.now)
      else NeedPtr(l.ip)
    case Ptr(t, name) =>
      var ip := s.threads[t].ip;
      if PtrResult(name).None? then Resolved(ip, FLY_UNKNOWN, Unknown(s.now), s.now)
      else NeedRegion(ip, PtrResult(name).value.0, PtrResult(name).value.1, s.now)
    case LoadTable(t) =>
      var l := s.threads[t];
      if l.app in s.tables then HasTable(l.ip, l.app, l.id, l.asked, s.tables[l.app])
        else NeedTxt(l.ip, l.app, l.id, l.asked)
    case CheckTable(t) =>
      var l := s.threads[t];
      if s.now < l.table.expiresAt && RegionIn(l.table.byId, l.id) != []
      then WithRegion(l.ip, l.app, l.id, l.asked, l.table, Some(s.now), s.now)
      else NeedTxt(l.ip, l.app, l.id, l.asked)
    case Txt(t, byId) =>
      var l := s.threads[t];
      if byId.None? then Resolved(l.ip, l.app, AppOnly(l.asked, l.app, l.id), s.now)
      else GotTxt(l.ip, l.app, l.id, l.asked, byId.value, s.now)
    case StoreTable(t, stamp) =>
      var l := s.threads[t];
      WithRegion(l.ip, l.app, l.id, l.asked, NewTable(l, stamp), None, s.now)
    case StoreIdent(t, _) =>
      var l := s.threads[t];
      Finished(l.ip, l.ident, l.source, None, s.now)
  }

  /** What a step adds to the past. */
  function Learnt(s: State, step: Step): set<Fact>
    requires Enabled(0, s, step) || step.Tick?
  {
    match step
    case Ptr(t, name) =>
      var ip := s.threads[t].ip;
      if PtrResult(name).None? then {PtrFailed(ip, s.now)}
      else {PtrSaid(ip, PtrResult(name).value.0, PtrResult(name).value.1, s.now)}
    case Txt(t, Some(byId)) => {TxtSaid(s.threads[t].app, byId, s.now)}
    case StoreTable(t, stamp) => {TableStored(s.threads[t].app, NewTable(s.threads[t], stamp))}
    case StoreIdent(t, stamp) => {EntryStored(s.threads[t].ip, NewEntry(s.threads[t], stamp, s.now))}
    case _ => {}
  }

  function Apply(lag: nat, s: State, step: Step): State
    requires Enabled(lag, s, step)
  {
    if step.Tick? then s.(now := s.now + step.elapsed)
    else
      var s' := s.(threads := s.threads[step.t := Move(s, step)], past := s.past + Learnt(s, step));
      match step
      case StoreTable(t, stamp) => s'.(tables := s.tables[s.threads[t].app := NewTable(s.threads[t], stamp)])
      case StoreIdent(t, stamp) => s'.(idents := s.idents[s.threads[t].ip := NewEntry(s.threads[t], stamp, s.now)])
      case _ => s'
  }

  function Run(lag: nat, steps: seq<Step>): Option<State> {
    if steps == [] then Some(EMPTY)
    else
      match Run(lag, steps[..|steps| - 1])
      case None => None
      case Some(s) =>
        var step := steps[|steps| - 1];
        if Enabled(lag, s, step) then Some(Apply(lag, s, step)) else None
  }

  // -------------------------------------------------------------- invariant

  predicate TableInv(lag: nat, s: State, app: Bytes, t: Table) {
    && TxtSaid(app, t.byId, t.reported) in s.past && TableStored(app, t) in s.past
    && t.reported <= s.now && t.expiresAt <= t.reported + lag + TTL
  }

  /**
    An identity for an address is what the resolver's answers about that address,
    its app and its machine make it, and a region read out of the cache was read
    strictly before its table expired.
   */
  predicate Justified(past: set<Fact>, ip: Bytes, ident: Bytes, source: Source) {
    match source
    case Unknown(asked) => PtrFailed(ip, asked) in past && ident == FLY_UNKNOWN
    case AppOnly(asked, app, id) => PtrSaid(ip, app, id, asked) in past && app != [] && ident == app
    case Region(asked, app, id, table, readAt) =>
      && PtrSaid(ip, app, id, asked) in past
      && TxtSaid(app, table.byId, table.reported) in past && TableStored(app, table) in past
      && (readAt.Some? ==> readAt.value < table.expiresAt)
      && app != [] && id in table.byId && table.byId[id] != [] && ident == table.byId[id] + [DOT] + app
  }

  /** A region is never older than this when its holder reaches a time. */
  predicate RegionYoung(source: Source, until: nat, limit: nat) {
    source.Region? ==> until <= source.table.reported + limit
  }

  predicate EntryInv(lag: nat, s: State, ip: Bytes, e: IdentEntry) {
    && Justified(s.past, ip, e.ident, e.source) && EntryStored(ip, e) in s.past
    && e.storedAt <= s.now && e.expiresAt <= e.storedAt + TTL
    && e.source.asked <= e.storedAt && e.expiresAt <= e.source.asked + lag + TTL
    && RegionYoung(e.source, e.expiresAt + 1, 2 * TTL + 2 * lag)
  }

  /** A thread between its PTR answer and its store. */
  predicate Asking(lag: nat, s: State, ip: Bytes, app: Bytes, id: Bytes, asked: nat) {
    app != [] && PtrSaid(ip, app, id, asked) in s.past && asked <= s.now <= asked + lag
  }

  predicate LookupInv(lag: nat, s: State, l: Lookup) {
    match l
    case Loaded(ip, e) => EntryInv(lag, s, ip, e)
    case NeedPtr(_) => true
    case NeedRegion(ip, app, id, asked) => Asking(lag, s, ip, app, id, asked)
    case HasTable(ip, app, id, asked, t) => Asking(lag, s, ip, app, id, asked) && TableInv(lag, s, app, t)
    case NeedTxt(ip, app, id, asked) => Asking(lag, s, ip, app, id, asked)
    case GotTxt(ip, app, id, asked, byId, at) =>
      Asking(lag, s, ip, app, id, asked) && TxtSaid(app, byId, at) in s.past && asked <= at <= s.now
    case Resolved(ip, ident, source, since) =>
      && Justified(s.past, ip, ident, source)
      && source.asked <= since <= s.now <= source.asked + lag
      && RegionYoung(source, since + 1, TTL + lag)
    case Finished(ip, ident, source, from, at) =>
      && Justified(s.past, ip, ident, source)
      && at <= s.now && source.asked <= at < source.asked + TTL + lag
      && RegionYoung(source, at + 2, 2 * TTL + 2 * lag)
      && (from.Some? ==> FromCache(s.past, ip, ident, source, from.value, at))
  }

  /** Served from the cache: an entry once stored for this address, before its expiry and within a TTL of its store. */
  predicate FromCache(past: set<Fact>, ip: Bytes, ident: Bytes, source: Source, e: IdentEntry, at: nat) {
    && EntryStored(ip, e) in past && e.ident == ident && e.source == source
    && e.storedAt <= at < e.expiresAt <= e.storedAt + TTL
  }

  predicate Inv(lag: nat, s: State) {
    && (forall app :: app in s.tables ==> TableInv(lag, s, app, s.tables[app]))
    && (forall ip :: ip in s.idents ==> EntryInv(lag, s, ip, s.idents[ip]))
    && (forall t :: t in s.threads ==> LookupInv(lag, s, s.threads[t]))
  }

  /** The state after a step's facts are known and before its stores. */
  function Knowing(s: State, step: Step): State
    requires Enabled(0, s, step) || step.Tick?
  {
    s.(past := s.past + Learnt(s, step))
  }

  lemma {:induction false} StartKeepsInv(lag: nat, s: State, step: Step)
    requires Inv(lag, s) && Enabled(lag, s, step) && (step.Start? || step.CheckEntry? || step.Ptr?)
    ensures LookupInv(lag, Knowing(s, step), Move(s, step))
  {
    hide ParsePtr;
    if step.Start? {
      assert step.ip in s.idents ==> EntryInv(lag, s, step.ip, s.idents[step.ip]);
    } else {
      assert LookupInv(lag, s, s.threads[step.t]);
    }
  }

  lemma {:induction false} TableKeepsInv(lag: nat, s: State, step: Step)
    requires Inv(lag, s) && Enabled(lag, s, step) && (step.LoadTable? || step.CheckTable?)
    ensures LookupInv(lag, Knowing(s, step), Move(s, step))
  {
    var l := s.threads[step.t];
    assert LookupInv(lag, s, l);
    assert s.past + Learnt(s, step) == s.past;
    if step.LoadTable? && l.app in s.tables {
      assert TableInv(lag, s, l.app, s.tables[l.app]);
    }
  }

  lemma {:induction false} TxtKeepsInv(lag: nat, s: State, step: Step)
    requires Inv(lag, s) && Enabled(lag, s, step) && (step.Txt? || step.StoreTable? || step.StoreIdent?)
    ensures LookupInv(lag, Knowing(s, step), Move(s, step))
  {
    var l := s.threads[step.t];
    assert LookupInv(lag, s, l);
  }

  /** The thread's next stage is justified by what is known once the step is over. */
  lemma {:induction false} MoveKeepsInv(lag: nat, s: State, step: Step)
    requires Inv(lag, s) && Enabled(lag, s, step) && !step.Tick?
    ensures LookupInv(lag, Knowing(s, step), Move(s, step))
  {
    hide Inv, LookupInv, Move, Knowing, Enabled;
    match step
    case Start(_, _) => StartKeepsInv(lag, s, step);
    case CheckEntry(_) => StartKeepsInv(lag, s, step);
    case Ptr(_, _) => StartKeepsInv(lag, s, step);
    case LoadTable(_) => TableKeepsInv(lag, s, step);
    case CheckTable(_) => TableKeepsInv(lag, s, step);
    case _ => TxtKeepsInv(lag, s, step);
  }

  /** Knowing more, or time passing within the limit, takes nothing back. */
  lemma {:induction false} OthersKeepInv(lag: nat, s: State, more: set<Fact>, d: nat)
    requires Inv(lag, s) && forall t :: t in s.threads ==> MayWait(lag, s.threads[t], s.now + d)
    ensures Inv(lag, s.(now := s.now + d, past := s.past + more))
  {
    var s' := s.(now := s.now + d, past := s.past + more);
    forall t | t in s.threads
      ensures LookupInv(lag, s', s.threads[t])
    {
      ThreadKeepsInv(lag, s, s', s.threads[t]);
    }
    forall ip | ip in s.idents
      ensures EntryInv(lag, s', ip, s.idents[ip])
    {
      assert EntryInv(lag, s, ip, s.idents[ip]);
      hide RegionYoung;
    }
  }

  lemma {:induction false} ThreadKeepsInv(lag: nat, s: State, s': State, l: Lookup)
    requires LookupInv(lag, s, l) && s.past <= s'.past && s.now <= s'.now && MayWait(lag, l, s'.now)
    ensures LookupInv(lag, s', l)
  {
  }

  /** A thread that moved on, with whatever it stored, fits a state that is in order. */
  lemma {:induction false} StoresKeepInv(lag: nat, s: State, t: nat, l: Lookup, app: Bytes, tab: Table, ip: Bytes,
      e: IdentEntry)
    requires Inv(lag, s) && LookupInv(lag, s, l)
    ensures Inv(lag, s.(threads := s.threads[t := l]))
    ensures TableInv(lag, s, app, tab) ==> Inv(lag, s.(threads := s.threads[t := l], tables := s.tables[app := tab]))
    ensures EntryInv(lag, s, ip, e) ==> Inv(lag, s.(threads := s.threads[t := l], idents := s.idents[ip := e]))
  {
    SamePast(lag, s, s.(threads := s.threads[t := l]));
    SamePast(lag, s, s.(threads := s.threads[t := l], tables := s.tables[app := tab]));
    SamePast(lag, s, s.(threads := s.threads[t := l], idents := s.idents[ip := e]));
    hide TableInv, EntryInv, LookupInv;
  }

  /** What is in order depends on the clock and the past only. */
  lemma {:induction false} SamePast(lag: nat, s: State, s': State)
    requires s'.now == s.now && s'.past == s.past
    ensures forall l :: LookupInv(lag, s, l) ==> LookupInv(lag, s', l)
    ensures forall ip, e :: EntryInv(lag, s, ip, e) ==> EntryInv(lag, s', ip, e)
    ensures forall app, tab :: TableInv(lag, s, app, tab) ==> TableInv(lag, s', app, tab)
  {
    hide Justified, RegionYoung, FromCache;
  }

  lemma {:induction false} StepKeepsInv(lag: nat, s: State, step: Step)
    requires Inv(lag, s) && Enabled(lag, s, step)
    ensures Inv(lag, Apply(lag, s, step))
  {
    hide Inv, LookupInv, Move, Learnt;
    if step.Tick? {
      OthersKeepInv(lag, s, {}, step.elapsed);
      assert s.past + {} == s.past;
    } else {
      MoveKeepsInv(lag, s, step);
      NoTick(lag, s);
      OthersKeepInv(lag, s, Learnt(s, step), 0);
      MovedKeepsInv(lag, s, step, Knowing(s, step), Move(s, step));
    }
  }

  /** The entry and the table a thread stores are in order. */
  lemma {:induction false} StoredInOrder(lag: nat, s: State, step: Step)
    requires Inv(lag, s) && Enabled(lag, s, step) && (step.StoreTable? || step.StoreIdent?)
    ensures var l := s.threads[step.t];
            && (step.StoreTable? ==> TableInv(lag, Knowing(s, step), l.app, NewTable(l, step.stamp)))
            && (step.StoreIdent? ==> EntryInv(lag, Knowing(s, step), l.ip, NewEntry(l, step.stamp, s.now)))
  {
    assert LookupInv(lag, s, s.threads[step.t]);
  }

  lemma {:induction false} MovedKeepsInv(lag: nat, s: State, step: Step, s': State, l': Lookup)
    requires Inv(lag, s) && Enabled(lag, s, step) && !step.Tick?
    requires s' == Knowing(s, step) && l' == Move(s, step)
    requires Inv(lag, s') && LookupInv(lag, s', l')
    ensures Inv(lag, Apply(lag, s, step))
  {
    hide Inv, LookupInv, TableInv, EntryInv, Move, Learnt;
    var tab, e := Table(map[], 0, 0), IdentEntry([], 0, Unknown(0), 0);
    if step.StoreTable? {
      var l := s.threads[step.t];
      StoredInOrder(lag, s, step);
      StoresKeepInv(lag, s', step.t, l', l.app, NewTable(l, step.stamp), [], e);
    } else if step.StoreIdent? {
      var l := s.threads[step.t];
      StoredInOrder(lag, s, step);
      StoresKeepInv(lag, s', step.t, l', [], tab, l.ip, NewEntry(l, step.stamp, s.now));
    } else {
      StoresKeepInv(lag, s', step.t, l', [], tab, [], e);
    }
  }

  lemma {:induction false} NoTick(lag: nat, s: State)
    requires Inv(lag, s)
    ensures forall t :: t in s.threads ==> MayWait(lag, s.threads[t], s.now + 0)
  {
    forall t | t in s.threads
      ensures MayWait(lag, s.threads[t], s.now + 0)
    {
      assert LookupInv(lag, s, s.threads[t]);
    }
  }

  lemma {:induction false} RunKeepsInv(lag: nat, steps: seq<Step>)
    requires Run(lag, steps).Some?
    ensures Inv(lag, Run(lag, steps).value)
  {
    hide Enabled, Apply;
    if steps == [] {
    } else {
      var n := |steps| - 1;
      RunKeepsInv(lag, steps[..n]);
      StepKeepsInv(lag, Run(lag, steps[..n]).value, steps[n]);
    }
  }

  // --------------------------------------------------------------- theorems

  /**
    Every identity ever returned, in any interleaving, is the one that answers
    about the very address asked for make up, and is not empty. Its PTR answer is
    less than TTL + lag old; one served from the cache was stored for this address
    less than a TTL ago and has not expired; and a region was reported at most
    2 * (TTL + lag) - 2 before, out of a table that had not expired when it was
    read.
   */
  lemma {:induction false} ReturnedIdentity(lag: nat, steps: seq<Step>, s: State, t: nat)
    requires Run(lag, steps) == Some(s) && t in s.threads && s.threads[t].Finished?
    ensures var l := s.threads[t];
            && Justified(s.past, l.ip, l.ident, l.source) && l.ident != []
            && l.source.asked <= l.at < l.source.asked + TTL + lag
            && (l.from.Some? ==>
                  && FromCache(s.past, l.ip, l.ident, l.source, l.from.value, l.at)
                  && l.at < l.from.value.storedAt + 300_000_000_000)
            && (l.source.Region? ==> l.at + 2 <= l.source.table.reported + 2 * TTL + 2 * lag)
            && (l.source.Region? && l.source.readAt.Some? ==> l.source.readAt.value < l.source.table.expiresAt)
  {
    RunKeepsInv(lag, steps);
    hide Run;
    assert LookupInv(lag, s, s.threads[t]);
  }

  /** Everything in the first cache is justified and not empty. */
  lemma {:induction false} CachedIdentity(lag: nat, steps: seq<Step>, s: State, ip: Bytes)
    requires Run(lag, steps) == Some(s) && ip in s.idents
    ensures Justified(s.past, ip, s.idents[ip].ident, s.idents[ip].source) && s.idents[ip].ident != []
  {
    RunKeepsInv(lag, steps);
    hide Run;
    assert EntryInv(lag, s, ip, s.idents[ip]);
  }
}
