/**
 * index.ts of the Postgres adapter: statements sent on a pool that a connection pooler may refuse.
 *
 * The settings travel in the startup options until a pooler refuses those; then the pool is rebuilt once and they travel in
 * front of every statement. Between two awaits the source runs alone, so a run is a sequence of such steps of any queries.
 */
module AdapterQueries {
  import opened Wrappers
  import opened SessionSettings

  type Caller = nat

  /** What one `connect` fixed: the DSN's own options and the settings of the role. */
  datatype Config = Config(own: Option<string>, settings: Pairs)

  datatype Pool = Pool(options: string, withStartup: bool, ends: nat)

  datatype Query =
    | Sent(sql: string, again: bool)  // in `pool.query(…)`
    | Ending(sql: string)             // in `await stale.end()`
    | Answered
    | Failed

  /** One message given to a pool. */
  datatype Message = Message(caller: Caller, sql: string, pool: nat, text: string)

  /** The adapter's fields; `pools` holds every pool built, `sent` every message. */
  datatype Adapter = Adapter(pools: seq<Pool>, startup: Option<string>, sent: seq<Message>)

  datatype System = System(adapter: Adapter, queries: map<Caller, Query>)

  datatype Event =
    | Begins(caller: Caller, sql: string)
    | Answers(caller: Caller)
    | Refuses(caller: Caller, ofStartup: bool)
    | Ends(caller: Caller)

  function NewPool(cfg: Config, startup: Option<string>): Pool {
    Pool(Composed(cfg.own, startup), startup.Some?, 0)
  }

  function Connect(cfg: Config): Adapter {
    Adapter([NewPool(cfg, Some(StartupOptions(cfg.settings)))], Some(StartupOptions(cfg.settings)), [])
  }

  /** The text a statement goes out as. */
  function TextOf(cfg: Config, a: Adapter, sql: string): string {
    if a.startup.None? && Prelude(cfg.settings) != "" then Prelude(cfg.settings) + " " + sql else sql
  }

  /** `#run`, up to its await. */
  function Run(cfg: Config, a: Adapter, c: Caller, sql: string): Adapter
    requires a.pools != []
  {
    a.(sent := a.sent + [Message(c, sql, |a.pools| - 1, TextOf(cfg, a, sql))])
  }

  function Rebuilt(cfg: Config, a: Adapter): Adapter
    requires a.pools != []
  {
    var stale := |a.pools| - 1;
    a.(startup := None, pools := a.pools[stale := a.pools[stale].(ends := a.pools[stale].ends + 1)] + [NewPool(cfg, None)])
  }

  predicate Enabled(s: System, e: Event) {
    match e
    case Begins(c, _) => c !in s.queries
    case Answers(c) => c in s.queries && s.queries[c].Sent?
    case Refuses(c, _) => c in s.queries && s.queries[c].Sent?
    case Ends(c) => c in s.queries && s.queries[c].Ending?
  }

  function Step(cfg: Config, s: System, e: Event): System
    requires s.adapter.pools != [] && Enabled(s, e)
  {
    var a := s.adapter;
    match e
    case Begins(c, sql) => System(Run(cfg, a, c, sql), s.queries[c := Sent(sql, false)])
    case Answers(c) => s.(queries := s.queries[c := Answered])
    case Refuses(c, ofStartup) =>
      var q := s.queries[c];
      if !q.again && a.startup.Some? && ofStartup then System(Rebuilt(cfg, a), s.queries[c := Ending(q.sql)])
      else s.(queries := s.queries[c := Failed])
    case Ends(c) => System(Run(cfg, a, c, s.queries[c].sql), s.queries[c := Sent(s.queries[c].sql, true)])
  }

  function Start(cfg: Config): System {
    System(Connect(cfg), map[])
  }

  ghost predicate Reachable(cfg: Config, s: System, events: nat)
    decreases events
  {
    if events == 0 then s == Start(cfg)
    else exists before, e :: Reachable(cfg, before, events - 1) && before.adapter.pools != [] && Enabled(before, e) && s == Step(cfg, before, e)
  }

  // ---- what every run keeps -----------------------------------------------

  /** The settings reach the server, one way and not both: with the pool, or in front of the statement. */
  predicate Guarded(cfg: Config, a: Adapter, m: Message) {
    && m.pool < |a.pools|
    && (a.pools[m.pool].withStartup ==> m.text == m.sql)
    && (!a.pools[m.pool].withStartup ==> m.text == Prelude(cfg.settings) + " " + m.sql)
  }

  ghost predicate AllGuarded(cfg: Config, a: Adapter) {
    forall k :: 0 <= k < |a.sent| ==> Guarded(cfg, a, a.sent[k])
  }

  ghost predicate PoolsOk(cfg: Config, a: Adapter) {
    && 1 <= |a.pools| <= 2
    && a.startup == (if |a.pools| == 1 then Some(StartupOptions(cfg.settings)) else None)
    && a.pools[0] == Pool(Composed(cfg.own, Some(StartupOptions(cfg.settings))), true, |a.pools| - 1)
    && (|a.pools| == 2 ==> a.pools[1] == Pool(Composed(cfg.own, None), false, 0))
  }

  /** How often a caller's statement was sent. */
  function Sends(sent: seq<Message>, c: Caller): nat {
    if sent == [] then 0 else Sends(sent[..|sent| - 1], c) + (if sent[|sent| - 1].caller == c then 1 else 0)
  }

  predicate SendsOk(s: System, c: Caller) {
    var n := Sends(s.adapter.sent, c);
    if c !in s.queries then n == 0
    else match s.queries[c]
      case Sent(_, again) => n == if again then 2 else 1
      case Ending(_) => n == 1
      case _ => 1 <= n <= 2
  }

  lemma SendsMore(sent: seq<Message>, m: Message, c: Caller)
    ensures Sends(sent + [m], c) == Sends(sent, c) + if m.caller == c then 1 else 0
  {
    assert (sent + [m])[..|sent|] == sent;
  }

  lemma PreludeHolds(cfg: Config)
    requires cfg.settings != []
    ensures Prelude(cfg.settings) != ""
  {
    assert SetTexts(cfg.settings)[0] == "SET LOCAL " + cfg.settings[0].0 + " = '" + cfg.settings[0].1 + "';";
  }

  lemma RunGuarded(cfg: Config, a: Adapter, c: Caller, sql: string)
    requires PoolsOk(cfg, a) && AllGuarded(cfg, a) && cfg.settings != []
    ensures PoolsOk(cfg, Run(cfg, a, c, sql)) && AllGuarded(cfg, Run(cfg, a, c, sql))
  {
    PreludeHolds(cfg);
  }

  lemma RebuiltGuarded(cfg: Config, a: Adapter)
    requires PoolsOk(cfg, a) && AllGuarded(cfg, a) && a.startup.Some?
    ensures PoolsOk(cfg, Rebuilt(cfg, a)) && AllGuarded(cfg, Rebuilt(cfg, a))
  {
  }

  lemma StepGuards(cfg: Config, s: System, e: Event)
    requires PoolsOk(cfg, s.adapter) && AllGuarded(cfg, s.adapter) && cfg.settings != [] && s.adapter.pools != [] && Enabled(s, e)
    ensures PoolsOk(cfg, Step(cfg, s, e).adapter) && AllGuarded(cfg, Step(cfg, s, e).adapter)
  {
    hide PoolsOk, AllGuarded, Run, Rebuilt;
    match e
    case Begins(c, sql) => RunGuarded(cfg, s.adapter, c, sql);
    case Ends(c) => RunGuarded(cfg, s.adapter, c, s.queries[c].sql);
    case Refuses(c, ofStartup) => if s.adapter.startup.Some? { RebuiltGuarded(cfg, s.adapter); }
    case Answers(_) =>
  }

  lemma StepSends(cfg: Config, s: System, e: Event, c: Caller)
    requires SendsOk(s, c) && s.adapter.pools != [] && Enabled(s, e)
    ensures SendsOk(Step(cfg, s, e), c)
  {
    hide Sends;
    if e.Begins? {
      SendsMore(s.adapter.sent, Message(e.caller, e.sql, |s.adapter.pools| - 1, TextOf(cfg, s.adapter, e.sql)), c);
    } else if e.Ends? {
      var sql := s.queries[e.caller].sql;
      SendsMore(s.adapter.sent, Message(e.caller, sql, |s.adapter.pools| - 1, TextOf(cfg, s.adapter, sql)), c);
    }
  }

  lemma {:induction false} ReachableOk(cfg: Config, s: System, events: nat, c: Caller)
    requires Reachable(cfg, s, events) && cfg.settings != []
    ensures PoolsOk(cfg, s.adapter) && AllGuarded(cfg, s.adapter) && SendsOk(s, c)
    decreases events
  {
    hide PoolsOk, AllGuarded, SendsOk, Step, Enabled;
    if events == 0 {
      StartOk(cfg, c);
    } else {
      var before, e :| Reachable(cfg, before, events - 1) && before.adapter.pools != [] && Enabled(before, e) && s == Step(cfg, before, e);
      ReachableOk(cfg, before, events - 1, c);
      StepGuards(cfg, before, e);
      StepSends(cfg, before, e, c);
    }
  }

  lemma StartOk(cfg: Config, c: Caller)
    ensures PoolsOk(cfg, Connect(cfg)) && AllGuarded(cfg, Connect(cfg)) && SendsOk(Start(cfg), c)
  {
  }

  // ---- the theorems -------------------------------------------------------

  /** However the queries interleave, no statement goes out without the settings. */
  lemma EveryStatementIsGuarded(cfg: Config, s: System, events: nat, k: nat)
    requires Reachable(cfg, s, events) && cfg.settings != [] && k < |s.adapter.sent|
    ensures var m := s.adapter.sent[k];
            && m.pool < |s.adapter.pools|
            && (|| (m.text == m.sql && EndsWith(s.adapter.pools[m.pool].options, StartupOptions(cfg.settings)))
                || m.text == Prelude(cfg.settings) + " " + m.sql)
  {
    hide Reachable, Composed, StartupOptions, EndsWith, Prelude, Sends, PoolsOk, SendsOk;
    ReachableOk(cfg, s, events, 0);
    PoolCarries(cfg, s.adapter);
    assert Guarded(cfg, s.adapter, s.adapter.sent[k]);
  }

  /** The settings, as the server reads them: with the pool's own options, or from the text in front of the statement. */
  ghost predicate Reads(settings: Pairs, options: string, m: Message) {
    || (m.text == m.sql && exists ours :: EndsWith(options, ours) && ReadOptions(ours) == Some(settings))
    || (exists prelude :: m.text == prelude + " " + m.sql && ReadSets(prelude) == Some(settings))
  }

  /** However the queries interleave, every statement reaches the server with all of the settings and no others of ours. */
  lemma EverySettingIsRead(cfg: Config, s: System, events: nat, k: nat)
    requires Reachable(cfg, s, events) && cfg.settings != [] && Plain(cfg.settings) && k < |s.adapter.sent|
    ensures var m := s.adapter.sent[k]; m.pool < |s.adapter.pools| && Reads(cfg.settings, s.adapter.pools[m.pool].options, m)
  {
    hide Reachable, StartupOptions, EndsWith, Prelude, ReadOptions, ReadSets, Plain;
    EveryStatementIsGuarded(cfg, s, events, k);
    BothFormsAreRead(cfg.settings);
  }

  /** So introspection never runs without its limits: whatever a pooler refuses, each statement carries the three of them. */
  lemma IntrospectionIsLimited(cfg: Config, s: System, events: nat, k: nat, timeout: string)
    requires Reachable(cfg, s, events) && k < |s.adapter.sent|
    requires cfg.settings == SettingsFor(timeout, true, None) && ' ' !in timeout && '\'' !in timeout
    ensures var m := s.adapter.sent[k];
            && m.pool < |s.adapter.pools|
            && exists pairs :: Reads(pairs, s.adapter.pools[m.pool].options, m) && Setting(pairs, "statement_timeout") == Some(timeout)
                               && Setting(pairs, "lock_timeout") == Some("2s") && Setting(pairs, "idle_in_transaction_session_timeout") == Some("10s")
  {
    hide Reachable, Reads, Plain, Setting;
    SettingsArePlain(timeout, true, None);
    EverySettingIsRead(cfg, s, events, k);
    SettingsAre(timeout, true, None, "statement_timeout");
    SettingsAre(timeout, true, None, "lock_timeout");
    SettingsAre(timeout, true, None, "idle_in_transaction_session_timeout");
  }

  lemma PoolCarries(cfg: Config, a: Adapter)
    requires PoolsOk(cfg, a)
    ensures forall k :: 0 <= k < |a.pools| && a.pools[k].withStartup ==> EndsWith(a.pools[k].options, StartupOptions(cfg.settings))
  {
    hide Composed, StartupOptions, EndsWith;
    ComposedHolds(cfg.own, Some(StartupOptions(cfg.settings)));
  }

  /** A statement is sent once when it begins and once more after the rebuild, each time on the pool in use; nothing else sends. */
  lemma SentOnPoolInUse(cfg: Config, s: System, e: Event)
    requires s.adapter.pools != [] && Enabled(s, e)
    ensures var t := Step(cfg, s, e);
            if e.Begins? || e.Ends? then
              var sql := if e.Begins? then e.sql else s.queries[e.caller].sql;
              && |t.adapter.sent| == |s.adapter.sent| + 1 && t.adapter.sent[..|s.adapter.sent|] == s.adapter.sent
              && var m := t.adapter.sent[|s.adapter.sent|]; m.caller == e.caller && m.sql == sql && m.pool == |s.adapter.pools| - 1
            else t.adapter.sent == s.adapter.sent
  {
  }

  /** One rebuild at most, the superseded pool told to end exactly once; no statement sent more than twice. */
  lemma RebuiltOnceSentTwice(cfg: Config, s: System, events: nat, c: Caller)
    requires Reachable(cfg, s, events) && cfg.settings != []
    ensures 1 <= |s.adapter.pools| <= 2 && s.adapter.pools[0].ends == |s.adapter.pools| - 1
    ensures |s.adapter.pools| == 2 ==> s.adapter.pools[1].ends == 0
    ensures Sends(s.adapter.sent, c) <= 2
  {
    hide Reachable;
    ReachableOk(cfg, s, events, c);
  }

  /** The operator's own options are in every pool. */
  lemma OwnOptionsStay(cfg: Config, s: System, events: nat, k: nat)
    requires Reachable(cfg, s, events) && cfg.settings != [] && k < |s.adapter.pools| && cfg.own.Some?
    ensures cfg.own.value <= s.adapter.pools[k].options
  {
    hide Reachable, Composed, StartupOptions;
    ReachableOk(cfg, s, events, 0);
    ComposedHolds(cfg.own, Some(StartupOptions(cfg.settings)));
    ComposedHolds(cfg.own, None);
  }

  /**
   * A query refused for the startup options is tried again exactly when it is its first try and no query before it was
   * refused so: a refusal by the old pool that comes after the rebuild is the caller's to bear.
   */
  lemma TriedAgainExactlyWhen(cfg: Config, s: System, events: nat, c: Caller)
    requires Reachable(cfg, s, events) && cfg.settings != [] && Enabled(s, Refuses(c, true)) && s.adapter.pools != []
    ensures Step(cfg, s, Refuses(c, true)).queries[c] == (if !s.queries[c].again && |s.adapter.pools| == 1 then Ending(s.queries[c].sql) else Failed)
  {
    hide Reachable, Sends, Prelude, StartupOptions;
    ReachableOk(cfg, s, events, c);
  }

  lemma OneMore(cfg: Config, s: System, events: nat, e: Event)
    requires Reachable(cfg, s, events) && s.adapter.pools != [] && Enabled(s, e)
    ensures Reachable(cfg, Step(cfg, s, e), events + 1)
  {
    hide Step, Enabled;
  }

  /** Two queries at once through a pooler: the first is carried over, the second fails though it was sent but once. */
  lemma SecondRefusalFails(cfg: Config, sql: string) returns (s: System)
    ensures Reachable(cfg, s, 4)
    ensures 1 in s.queries && s.queries[1] == Ending(sql) && 2 in s.queries && s.queries[2] == Failed
  {
    hide Reachable, Prelude, StartupOptions;
    s := Start(cfg);
    StartReachable(cfg);
    OneMore(cfg, s, 0, Begins(1, sql));
    s := Step(cfg, s, Begins(1, sql));
    OneMore(cfg, s, 1, Begins(2, sql));
    s := Step(cfg, s, Begins(2, sql));
    OneMore(cfg, s, 2, Refuses(1, true));
    s := Step(cfg, s, Refuses(1, true));
    OneMore(cfg, s, 3, Refuses(2, true));
    s := Step(cfg, s, Refuses(2, true));
  }

  lemma StartReachable(cfg: Config)
    ensures Reachable(cfg, Start(cfg), 0)
  {
  }

  // ---- the adapter --------------------------------------------------------

  class PostgresAdapter {
    const cfg: Config
    var pools: seq<Pool>
    var startup: Option<string>
    ghost var sent: seq<Message>

    ghost function Abs(): Adapter
      reads this
    {
      Adapter(pools, startup, sent)
    }

    constructor (cfg: Config)
      ensures this.cfg == cfg && Abs() == Connect(cfg)
    {
      this.cfg := cfg;
      startup := Some(StartupOptions(cfg.settings));
      pools := [NewPool(cfg, Some(StartupOptions(cfg.settings)))];
      sent := [];
    }

    /** `#run` up to its await: the pool and the text it gives that pool. */
    method Send(ghost c: Caller, sql: string) returns (pool: nat, text: string)
      requires pools != []
      modifies this`sent
      ensures Abs() == Run(cfg, old(Abs()), c, sql)
      ensures sent == old(sent) + [Message(c, sql, pool, text)]
    {
      var usePrelude := startup.None? && Prelude(cfg.settings) != "";
      pool := |pools| - 1;
      text := if usePrelude then Prelude(cfg.settings) + " " + sql else sql;
      sent := sent + [Message(c, sql, pool, text)];
    }

    /** The catch block of `#query`, up to its await. */
    method Catch(sql: string, ofStartup: bool) returns (next: Query)
      requires pools != []
      modifies this
      ensures var c: Caller := 0;
              var before := System(old(Abs()), map[c := Sent(sql, false)]);
              System(Abs(), map[c := next]) == Step(cfg, before, Refuses(c, ofStartup))
    {
      if startup.Some? && ofStartup {
        var stale := |pools| - 1;
        startup := None;
        pools := pools + [NewPool(cfg, None)];
        pools := pools[stale := pools[stale].(ends := pools[stale].ends + 1)];
        return Ending(sql);
      }
      return Failed;
    }
  }
}
