/**
 * query-engine.ts: the pool behind kysely, swapped at most twice under any number of concurrent checkouts.
 *
 * Between two awaits the source runs alone, so a run is a sequence of such steps: a call begins, a pool answers it, a
 * superseded pool finishes ending, a call that waited for that goes on. Pools may answer in any order and in any way.
 */
module QueryEngine {
  import opened Wrappers
  import opened SessionSettings

  type Caller = nat

  /** What the engine is made with: the DSN's own options, the statement budget, and this process's zone unless the DSN names one. */
  datatype Config = Config(own: Option<string>, budget: string, zone: Option<string>)

  /** What a refusal says: the two tests look at the message, so an error may be of both kinds or of neither. */
  datatype Refusal = Refusal(ofZone: bool, ofStartup: bool)

  /** `ours` is what of ours it was built with; `ends` counts the calls of its `end`. */
  datatype Pool = Pool(options: string, ours: Pairs, ends: nat, ended: bool)

  datatype Call =
    | Connecting(used: nat)    // in `used.connect()`
    | Waiting(stale: nat)      // in `await downgrade`, for that pool's end
    | Retrying(used: nat)      // in `pool.connect()`, the last try
    | Connected(used: nat)
    | Failed(refusal: Refusal)

  /** The closure's variables, `pools` holding every pool ever built. */
  datatype Facade = Facade(pools: seq<Pool>, zone: Option<string>, ours: Pairs, downgrade: Option<nat>)

  datatype System = System(facade: Facade, calls: map<Caller, Call>)

  datatype Event =
    | Begins(caller: Caller)
    | Grants(caller: Caller)
    | Refuses(caller: Caller, refusal: Refusal)
    | Ends(pool: nat)
    | GoesOn(caller: Caller)

  function Text(pairs: Pairs): Option<string> {
    if pairs == [] then None else Some(StartupOptions(pairs))
  }

  function NewPool(cfg: Config, ours: Pairs): Pool {
    Pool(Composed(cfg.own, Text(ours)), ours, 0, false)
  }

  function Open(cfg: Config): Facade {
    var ours := SettingsFor(cfg.budget, false, cfg.zone);
    Facade([NewPool(cfg, ours)], cfg.zone, ours, None)
  }

  /** The place of the pool in use: the last one built. */
  function Current(f: Facade): nat
    requires f.pools != []
  {
    |f.pools| - 1
  }

  /** Builds the next pool without some of ours and starts ending the one it supersedes. */
  function Rebuilt(cfg: Config, f: Facade, zone: Option<string>, ours: Pairs): Facade
    requires f.pools != []
  {
    var stale := Current(f);
    Facade(f.pools[stale := f.pools[stale].(ends := f.pools[stale].ends + 1)] + [NewPool(cfg, ours)], zone, ours, Some(stale))
  }

  /** `if (downgrade !== null) await downgrade; return await pool.connect()`. */
  function AwaitDowngrade(f: Facade): Call
    requires f.pools != []
  {
    match f.downgrade case Some(stale) => Waiting(stale) case None => Retrying(Current(f))
  }

  /** The catch block, for a call refused by the pool `used`. */
  function OnRefusal(cfg: Config, f: Facade, used: nat, r: Refusal): (Facade, Call)
    requires f.pools != []
  {
    if r.ofZone && f.zone.Some? && f.ours != [] then
      if used != Current(f) then (f, AwaitDowngrade(f))
      else
        var g := Rebuilt(cfg, f, None, SettingsFor(cfg.budget, false, None));
        (g, AwaitDowngrade(g))
    else if !r.ofStartup then (f, Failed(r))
    else if used != Current(f) then (f, AwaitDowngrade(f))
    else if f.ours == [] then (f, Failed(r))
    else
      var g := Rebuilt(cfg, f, f.zone, []);
      (g, AwaitDowngrade(g))
  }

  predicate Enabled(s: System, e: Event) {
    match e
    case Begins(c) => c !in s.calls
    case Grants(c) => c in s.calls && (s.calls[c].Connecting? || s.calls[c].Retrying?)
    case Refuses(c, _) => c in s.calls && (s.calls[c].Connecting? || s.calls[c].Retrying?)
    case Ends(p) => p < |s.facade.pools| && s.facade.pools[p].ends > 0 && !s.facade.pools[p].ended
    case GoesOn(c) => c in s.calls && s.calls[c].Waiting? && s.calls[c].stale < |s.facade.pools| && s.facade.pools[s.calls[c].stale].ended
  }

  function Step(cfg: Config, s: System, e: Event): System
    requires s.facade.pools != [] && Enabled(s, e)
  {
    var f := s.facade;
    match e
    case Begins(c) => s.(calls := s.calls[c := Connecting(Current(f))])
    case Grants(c) => s.(calls := s.calls[c := Connected(s.calls[c].used)])
    case Refuses(c, r) =>
      if s.calls[c].Retrying? then s.(calls := s.calls[c := Failed(r)])
      else
        var (g, call) := OnRefusal(cfg, f, s.calls[c].used, r);
        System(g, s.calls[c := call])
    case Ends(p) => s.(facade := f.(pools := f.pools[p := f.pools[p].(ended := true)]))
    case GoesOn(c) => s.(calls := s.calls[c := Retrying(Current(f))])
  }

  function Start(cfg: Config): System {
    System(Open(cfg), map[])
  }

  ghost predicate Reachable(cfg: Config, s: System, events: nat)
    decreases events
  {
    if events == 0 then s == Start(cfg)
    else exists before, e :: Reachable(cfg, before, events - 1) && before.facade.pools != [] && Enabled(before, e) && s == Step(cfg, before, e)
  }

  // ---- what every run keeps -----------------------------------------------

  /** What of ours the pools carry, in the order they can be built: everything, without the zone, nothing. */
  ghost predicate FacadeOk(cfg: Config, f: Facade) {
    var full, bare := SettingsFor(cfg.budget, false, cfg.zone), SettingsFor(cfg.budget, false, None);
    && 1 <= |f.pools| <= 3
    && f.ours == f.pools[|f.pools| - 1].ours
    && f.pools[0].ours == full
    && (forall k :: 0 <= k < |f.pools| ==> f.pools[k].options == Composed(cfg.own, Text(f.pools[k].ours)))
    && (forall k :: 0 <= k < |f.pools| ==> f.pools[k].ends == (if k < |f.pools| - 1 then 1 else 0))
    && (forall k :: 0 <= k < |f.pools| ==> f.pools[k].ended ==> k < |f.pools| - 1)
    && f.downgrade == (if |f.pools| == 1 then None else Some(|f.pools| - 2))
    && (|f.pools| == 1 ==> f.zone == cfg.zone)
    && (|f.pools| == 2 ==> (f.ours == [] && f.zone == cfg.zone) || (f.ours == bare && f.zone.None? && cfg.zone.Some?))
    && (|f.pools| == 3 ==> f.ours == [] && f.zone.None? && cfg.zone.Some? && f.pools[1].ours == bare)
  }

  ghost predicate CallsOk(s: System) {
    forall c :: c in s.calls ==> CallOk(s.facade, s.calls[c])
  }

  lemma RefusalKeeps(cfg: Config, f: Facade, used: nat, r: Refusal)
    requires FacadeOk(cfg, f) && used < |f.pools|
    ensures var (g, call) := OnRefusal(cfg, f, used, r);
            && FacadeOk(cfg, g) && |f.pools| <= |g.pools|
            && (call.Waiting? ==> call.stale + 1 < |g.pools|) && (call.Waiting? || call == Failed(r))
  {
    hide Composed, StartupOptions;
  }

  predicate CallOk(f: Facade, call: Call) {
    match call
    case Connecting(used) => used < |f.pools|
    case Waiting(stale) => stale + 1 < |f.pools|
    case Retrying(used) => 0 < used < |f.pools|
    case Connected(used) => used < |f.pools|
    case Failed(_) => true
  }

  lemma CallMoves(s: System, f: Facade, c: Caller, call: Call)
    requires CallsOk(s) && |f.pools| >= |s.facade.pools| && CallOk(f, call)
    ensures CallsOk(System(f, s.calls[c := call]))
  {
  }

  lemma StepKeeps(cfg: Config, s: System, e: Event)
    requires FacadeOk(cfg, s.facade) && CallsOk(s) && Enabled(s, e)
    ensures FacadeOk(cfg, Step(cfg, s, e).facade) && CallsOk(Step(cfg, s, e))
  {
    hide FacadeOk, CallsOk, OnRefusal;
    CallAt(cfg, s, e);
    match e
    case Begins(c) => CallMoves(s, s.facade, c, Connecting(Current(s.facade)));
    case Grants(c) => CallMoves(s, s.facade, c, Connected(s.calls[c].used));
    case Refuses(c, r) =>
      if s.calls[c].Retrying? {
        CallMoves(s, s.facade, c, Failed(r));
      } else {
        RefusalKeeps(cfg, s.facade, s.calls[c].used, r);
        var (g, call) := OnRefusal(cfg, s.facade, s.calls[c].used, r);
        CallMoves(s, g, c, call);
      }
    case Ends(p) => EndKeeps(cfg, s, p);
    case GoesOn(c) => CallMoves(s, s.facade, c, Retrying(Current(s.facade)));
  }

  lemma EndKeeps(cfg: Config, s: System, p: nat)
    requires FacadeOk(cfg, s.facade) && CallsOk(s) && Enabled(s, Ends(p))
    ensures FacadeOk(cfg, Step(cfg, s, Ends(p)).facade) && CallsOk(Step(cfg, s, Ends(p)))
  {
    hide FacadeOk;
    EndedFacade(cfg, s.facade, p);
  }

  lemma EndedFacade(cfg: Config, f: Facade, p: nat)
    requires FacadeOk(cfg, f) && p < |f.pools| && f.pools[p].ends > 0
    ensures FacadeOk(cfg, f.(pools := f.pools[p := f.pools[p].(ended := true)]))
  {
    hide Composed, StartupOptions, SettingsFor;
  }

  lemma CallAt(cfg: Config, s: System, e: Event)
    requires FacadeOk(cfg, s.facade) && CallsOk(s) && Enabled(s, e)
    ensures s.facade.pools != []
    ensures !e.Begins? && !e.Ends? ==> CallOk(s.facade, s.calls[e.caller])
  {
  }

  lemma {:induction false} ReachableOk(cfg: Config, s: System, events: nat)
    requires Reachable(cfg, s, events)
    ensures FacadeOk(cfg, s.facade) && CallsOk(s)
    decreases events
  {
    hide FacadeOk, CallsOk, Step;
    if events == 0 {
      StartOk(cfg);
    } else {
      var before, e :| Reachable(cfg, before, events - 1) && before.facade.pools != [] && Enabled(before, e) && s == Step(cfg, before, e);
      ReachableOk(cfg, before, events - 1);
      StepKeeps(cfg, before, e);
    }
  }

  lemma StartOk(cfg: Config)
    ensures FacadeOk(cfg, Open(cfg)) && CallsOk(Start(cfg))
  {
  }

  // ---- the theorems -------------------------------------------------------

  /** Never more than two rebuilds; each superseded pool is told to end exactly once, and the one in use never. */
  lemma RebuiltAtMostTwice(cfg: Config, s: System, events: nat)
    requires Reachable(cfg, s, events)
    ensures 1 <= |s.facade.pools| <= 3
    ensures forall k :: 0 <= k < |s.facade.pools| ==> s.facade.pools[k].ends == if k < Current(s.facade) then 1 else 0
  {
    hide Reachable;
    ReachableOk(cfg, s, events);
  }

  /** Every pool carries the operator's own options, ahead of ours; what is ours only ever shrinks, and is never made up. */
  lemma OwnOptionsStay(cfg: Config, s: System, events: nat, k: nat)
    requires Reachable(cfg, s, events) && k < |s.facade.pools|
    ensures cfg.own.Some? ==> cfg.own.value <= s.facade.pools[k].options
    ensures s.facade.pools[k].ours != [] ==> EndsWith(s.facade.pools[k].options, StartupOptions(s.facade.pools[k].ours))
    ensures k + 1 < |s.facade.pools| ==>
              && s.facade.pools[k + 1].ours <= s.facade.pools[k].ours
              && |s.facade.pools[k + 1].ours| < |s.facade.pools[k].ours|
  {
    hide Reachable, Composed, StartupOptions, EndsWith;
    ReachableOk(cfg, s, events);
    ComposedHolds(cfg.own, Text(s.facade.pools[k].ours));
  }

  /** A call refused for its startup options by a pool already superseded waits for that and tries the pool in use. */
  lemma SupersededRefusalTriesAgain(cfg: Config, s: System, events: nat, c: Caller, r: Refusal)
    requires Reachable(cfg, s, events) && c in s.calls && s.calls[c].Connecting?
    requires s.calls[c].used + 1 < |s.facade.pools| && r.ofStartup
    ensures Step(cfg, s, Refuses(c, r)) == s.(calls := s.calls[c := Waiting(Current(s.facade) - 1)])
  {
    hide Reachable;
    ReachableOk(cfg, s, events);
  }

  /** When a call that waited goes on, it is with a pool built after the one that refused it, carrying less of ours. */
  lemma RetryIsNewer(cfg: Config, s: System, events: nat, c: Caller, r: Refusal)
    requires Reachable(cfg, s, events) && c in s.calls && s.calls[c].Connecting?
    ensures s.calls[c].used < |s.facade.pools|
    ensures var t, used := Step(cfg, s, Refuses(c, r)), s.calls[c].used;
            t.calls[c].Waiting? ==>
              && used <= t.calls[c].stale < Current(t.facade)
              && |t.facade.ours| < |s.facade.pools[used].ours|
  {
    hide Reachable;
    ReachableOk(cfg, s, events);
  }

  /** The source's case of a zone refusal by a superseded pool cannot be reached: the first rebuild ends what it asks for. */
  lemma ZoneRefusalIsOfCurrentPool(cfg: Config, s: System, events: nat, c: Caller)
    requires Reachable(cfg, s, events) && c in s.calls && s.calls[c].Connecting?
    requires s.facade.zone.Some? && s.facade.ours != []
    ensures s.facade.pools != [] && s.calls[c].used == Current(s.facade)
  {
    hide Reachable;
    ReachableOk(cfg, s, events);
  }

  /** What the first pool is opened with: the operator's options, the limit, and the zone if there is one. */
  lemma OpensWith(cfg: Config)
    ensures var ours := [("statement_timeout", cfg.budget)] + (if cfg.zone.Some? then [("TimeZone", cfg.zone.value)] else []);
            var first := Open(cfg).pools[0];
            && first.ours == ours
            && first.options == (if cfg.own.Some? then cfg.own.value + " " else "") + StartupOptions(ours)
  {
    hide StartupOptions, Composed;
    var ours := [("statement_timeout", cfg.budget)] + (if cfg.zone.Some? then [("TimeZone", cfg.zone.value)] else []);
    assert SettingsFor(cfg.budget, false, cfg.zone) == ours;
    ComposedHolds(cfg.own, Text(ours));
    if cfg.own.None? {
      assert "" + StartupOptions(ours) == StartupOptions(ours);
    }
  }

  /**
   * What a refusal by the pool in use takes out: for its zone the zone alone, the limit staying; for its startup options all of
   * ours, the operator's staying. The call waits for the pool superseded.
   */
  lemma RefusalTakesOut(cfg: Config, s: System, events: nat, c: Caller, r: Refusal)
    requires Reachable(cfg, s, events) && c in s.calls && s.facade.pools != [] && s.calls[c] == Connecting(Current(s.facade))
    requires s.facade.ours != [] && (r.ofStartup || (r.ofZone && s.facade.zone.Some?))
    ensures var t := Step(cfg, s, Refuses(c, r));
            var ours := if r.ofZone && s.facade.zone.Some? then [("statement_timeout", cfg.budget)] else [];
            && |t.facade.pools| == |s.facade.pools| + 1
            && t.facade.pools[|s.facade.pools|] == Pool(Composed(cfg.own, if ours == [] then None else Some(StartupOptions(ours))), ours, 0, false)
            && t.facade.ours == ours
            && t.facade.zone == (if r.ofZone then None else s.facade.zone)
            && t.calls[c] == Waiting(Current(s.facade))
  {
    hide Reachable, StartupOptions, Composed;
    ReachableOk(cfg, s, events);
    assert SettingsFor(cfg.budget, false, None) == [("statement_timeout", cfg.budget)];
  }

  /** Refused as its own to bear: no options of ours to drop, and no zone of ours in the pool in use. */
  predicate Fails(cfg: Config, f: Facade, used: nat, r: Refusal)
    requires used < |f.pools|
  {
    && !(r.ofStartup && f.pools[used].ours != [])
    && !(r.ofZone && used == Current(f) && cfg.zone.Some? && f.pools[used].ours == SettingsFor(cfg.budget, false, cfg.zone))
  }

  lemma RefusalFails(cfg: Config, f: Facade, used: nat, r: Refusal)
    requires FacadeOk(cfg, f) && used < |f.pools|
    ensures OnRefusal(cfg, f, used, r).1 == Failed(r) <==> Fails(cfg, f, used, r)
  {
    assert |f.pools| >= 2 ==> f.pools[0].ours != [];
    assert |f.pools| == 3 ==> f.pools[1].ours != [];
  }

  lemma FirstTryInRange(s: System, c: Caller)
    requires CallsOk(s) && c in s.calls && s.calls[c].Connecting?
    ensures s.calls[c].used < |s.facade.pools|
  {
  }

  /** Which first refusals are the caller's to bear. */
  lemma FailsExactlyWhen(cfg: Config, s: System, events: nat, c: Caller, r: Refusal)
    requires Reachable(cfg, s, events) && c in s.calls && s.calls[c].Connecting?
    ensures s.calls[c].used < |s.facade.pools|
    ensures Step(cfg, s, Refuses(c, r)).calls[c] == Failed(r) <==> Fails(cfg, s.facade, s.calls[c].used, r)
  {
    hide Reachable, FacadeOk, CallsOk, OnRefusal, Fails;
    ReachableOk(cfg, s, events);
    FirstTryInRange(s, c);
    RefusalFails(cfg, s.facade, s.calls[c].used, r);
  }

  /** A retry refused is rethrown, for whatever reason and whatever the pool in use still carries: there is one retry only. */
  lemma RetryRefusedIsRethrown(cfg: Config, s: System, events: nat, c: Caller, r: Refusal)
    requires Reachable(cfg, s, events) && c in s.calls && s.calls[c].Retrying?
    ensures s.facade.pools != [] && Step(cfg, s, Refuses(c, r)) == s.(calls := s.calls[c := Failed(r)])
  {
    hide Reachable;
    ReachableOk(cfg, s, events);
  }

  /**
   * Refused for its zone, then on the retry for the startup options: rethrown although options of ours are left, which the next
   * call's refusal would drop.
   */
  lemma RetryLosesItsDowngrade(cfg: Config) returns (s: System)
    requires cfg.zone.Some?
    ensures Reachable(cfg, s, 5)
    ensures 1 in s.calls && s.calls[1] == Failed(Refusal(false, true)) && s.facade.ours != []
  {
    hide Reachable;
    s := Start(cfg);
    StartReachable(cfg);
    OneMore(cfg, s, 0, Begins(1));
    s := Step(cfg, s, Begins(1));
    OneMore(cfg, s, 1, Refuses(1, Refusal(true, false)));
    s := Step(cfg, s, Refuses(1, Refusal(true, false)));
    OneMore(cfg, s, 2, Ends(0));
    s := Step(cfg, s, Ends(0));
    OneMore(cfg, s, 3, GoesOn(1));
    s := Step(cfg, s, GoesOn(1));
    OneMore(cfg, s, 4, Refuses(1, Refusal(false, true)));
    s := Step(cfg, s, Refuses(1, Refusal(false, true)));
  }

  /** A call begins on the pool in use, and one that has waited goes on with the pool in use then. */
  lemma TriesPoolInUse(cfg: Config, s: System, e: Event)
    requires s.facade.pools != [] && Enabled(s, e)
    ensures e.Begins? ==> Step(cfg, s, e) == s.(calls := s.calls[e.caller := Connecting(|s.facade.pools| - 1)])
    ensures e.GoesOn? ==> Step(cfg, s, e) == s.(calls := s.calls[e.caller := Retrying(|s.facade.pools| - 1)])
  {
  }

  /** A call that waits is never left waiting: the pool it waits for was told to end, and once it has the call goes on. */
  lemma WaitersCanGoOn(cfg: Config, s: System, events: nat, c: Caller)
    requires Reachable(cfg, s, events) && c in s.calls && s.calls[c].Waiting?
    ensures Enabled(s, Ends(s.calls[c].stale)) || Enabled(s, GoesOn(c))
  {
    hide Reachable;
    ReachableOk(cfg, s, events);
  }

  lemma OneMore(cfg: Config, s: System, events: nat, e: Event)
    requires Reachable(cfg, s, events) && s.facade.pools != [] && Enabled(s, e)
    ensures Reachable(cfg, Step(cfg, s, e), events + 1)
  {
    hide Step, Enabled;
  }

  /** Two calls at once on a server too old for the zone: the first is carried over, the second is refused for good. */
  lemma SecondZoneRefusalFails(cfg: Config) returns (s: System)
    requires cfg.zone.Some?
    ensures Reachable(cfg, s, 4)
    ensures 1 in s.calls && s.calls[1] == Waiting(0) && 2 in s.calls && s.calls[2] == Failed(Refusal(true, false))
  {
    hide Reachable;
    var tooOld := Refusal(true, false);
    s := Start(cfg);
    assert Reachable(cfg, s, 0) by { StartReachable(cfg); }
    OneMore(cfg, s, 0, Begins(1));
    s := Step(cfg, s, Begins(1));
    OneMore(cfg, s, 1, Begins(2));
    s := Step(cfg, s, Begins(2));
    OneMore(cfg, s, 2, Refuses(1, tooOld));
    s := Step(cfg, s, Refuses(1, tooOld));
    OneMore(cfg, s, 3, Refuses(2, tooOld));
    s := Step(cfg, s, Refuses(2, tooOld));
  }

  lemma StartReachable(cfg: Config)
    ensures Reachable(cfg, Start(cfg), 0)
  {
  }

  // ---- the closure --------------------------------------------------------

  class Engine {
    const cfg: Config
    var pools: seq<Pool>
    var zone: Option<string>
    var ours: Pairs
    var downgrade: Option<nat>

    function Abs(): Facade
      reads this
    {
      Facade(pools, zone, ours, downgrade)
    }

    constructor (cfg: Config)
      ensures this.cfg == cfg && Abs() == Open(cfg)
    {
      this.cfg := cfg;
      zone := cfg.zone;
      var settings := SettingsFor(cfg.budget, false, cfg.zone);
      ours := settings;
      pools := [NewPool(cfg, settings)];
      downgrade := None;
    }

    /** Puts a new pool in use and starts ending the one it supersedes. */
    method Downgrade()
      requires pools != []
      modifies this
      ensures Abs() == Rebuilt(cfg, old(Abs()), zone, ours) && zone == old(zone) && ours == old(ours)
    {
      var stale := |pools| - 1;
      pools := pools + [NewPool(cfg, ours)];
      pools := pools[stale := pools[stale].(ends := pools[stale].ends + 1)];
      downgrade := Some(stale);
    }

    method AfterDowngrade() returns (call: Call)
      requires pools != []
      ensures call == AwaitDowngrade(Abs())
    {
      match downgrade
      case Some(stale) => call := Waiting(stale);
      case None => call := Retrying(|pools| - 1);
    }

    /** The catch block of `connect`, up to its next await. */
    method Catch(used: nat, r: Refusal) returns (call: Call)
      requires pools != []
      modifies this
      ensures (Abs(), call) == OnRefusal(cfg, old(Abs()), used, r)
    {
      StartupOptionsEmpty(ours);
      if r.ofZone && zone.Some? && StartupOptions(ours) != "" {
        if used != |pools| - 1 {
          call := AfterDowngrade();
          return;
        }
        zone := None;
        ours := SettingsFor(cfg.budget, false, zone);
        Downgrade();
        call := AfterDowngrade();
        return;
      }
      if !r.ofStartup {
        return Failed(r);
      }
      if used != |pools| - 1 {
        call := AfterDowngrade();
        return;
      }
      if StartupOptions(ours) == "" {
        return Failed(r);
      }
      ours := [];
      Downgrade();
      call := AfterDowngrade();
    }
  }
}
