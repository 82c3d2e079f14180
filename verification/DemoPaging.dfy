/**
 * Missed-event paging is exactly once. A client that always sends back the last cursor, whatever else happens to the
 * backend between its calls, is given events in the order they were emitted, none twice; and an event it has passed
 * without being given was delivered by webhook, or was forgotten as older than a lifetime.
 */
module DemoPaging {
  import opened Wrappers
  import opened PaymentDemo
  import opened DemoInvariants
  import opened DemoRuns
  import opened DemoLog
  import opened DemoTheorems

  // ---- one page -----------------------------------------------------------

  predicate Increasing(xs: seq<nat>) {
    forall i, j :: 0 <= i < j < |xs| ==> xs[i] < xs[j]
  }

  /** `Undelivered` lists, in order, places from `start` on that are not delivered. */
  lemma {:induction false} UndeliveredSorted(es: seq<Logged>, start: nat)
    requires start <= |es|
    ensures var ks := Undelivered(es, start);
            Increasing(ks) && forall i :: 0 <= i < |ks| ==> start <= ks[i] < |es| && !es[ks[i]].delivered
    decreases |es| - start
  {
    hide Increasing;
    if start < |es| {
      UndeliveredSorted(es, start + 1);
      ConsIncreasing(start, Undelivered(es, start + 1));
    } else {
      NoneIncreasing();
    }
  }

  /** It leaves none of them out. */
  lemma {:induction false} UndeliveredComplete(es: seq<Logged>, start: nat, k: nat)
    requires start <= k < |es| && !es[k].delivered
    ensures k in Undelivered(es, start)
    decreases |es| - start
  {
    if start < k {
      UndeliveredComplete(es, start + 1, k);
    }
  }

  lemma NoneIncreasing()
    ensures Increasing([])
  {
  }

  lemma ConsIncreasing(x: nat, ks: seq<nat>)
    requires Increasing(ks) && forall i :: 0 <= i < |ks| ==> x < ks[i]
    ensures Increasing([x] + ks)
  {
  }

  /** A page holds the first hundred places not delivered, and `more` tells whether any is behind it. */
  lemma PageExactly(es: seq<Logged>, after: Option<Id>)
    ensures var start, places, body := PageStart(es, after), PagePlaces(es, after), PageOf(es, after);
            && Increasing(places)
            && (forall i :: 0 <= i < |places| ==> start <= places[i] && !es[places[i]].delivered)
            && (forall k :: start <= k < |es| && !es[k].delivered ==> k in places || (places != [] && k > places[|places| - 1] && body.more))
            && |places| <= 100 && (body.more ==> |places| == 100)
  {
    hide Undelivered, PageStart, EventsAt;
    var start := PageStart(es, after);
    UndeliveredSorted(es, start);
    var all := Undelivered(es, start);
    forall k | start <= k < |es| && !es[k].delivered
      ensures k in all && (|all| > PAGE_MAX ==> k in all[..PAGE_MAX] || k > all[PAGE_MAX - 1])
    {
      UndeliveredComplete(es, start, k);
      var i :| 0 <= i < |all| && all[i] == k;
      if i < PAGE_MAX < |all| {
        assert all[..PAGE_MAX][i] == k;
      }
    }
  }

  // ---- a client paging ----------------------------------------------------

  /** The backend, the cursor the client holds, and everything it has been given so far. */
  datatype Client = Client(state: State, cursor: Option<Id>, got: seq<Event>)

  datatype Move = Poll(at: Time) | Other(op: Op, at: Time)

  /** The client polls with its cursor, or anyone does anything else. */
  function ClientStep(cfg: Config, c: Client, move: Move): Client {
    match move
    case Other(op, at) => c.(state := Step(cfg, c.state, op, at).0)
    case Poll(at) =>
      var (t, reply) := Step(cfg, c.state, CallHttp(true, true, GetEvents(c.cursor)), at);
      if reply.Answer? && reply.body.EventsBody? then Client(t, reply.body.cursor, c.got + reply.body.events) else c.(state := t)
  }

  /** The place of the cursor's event in the history, or -1 before the first page. */
  function Ahead(places: seq<nat>): int {
    if places == [] then -1 else places[|places| - 1]
  }

  /** `places` are the places in the history of what the client was given. */
  ghost predicate GivenAt(c: Client, places: seq<nat>) {
    && Matches(c.state.history, c.got, places)
    && Increasing(places)
    && (if places == [] then c.cursor.None? else c.cursor == Some(c.state.history[Ahead(places)].id))
    && (forall p :: 0 <= p <= Ahead(places) ==> p in places || p < Dropped(c.state) || Delivered(c.state, p))
  }

  /** Exactly once: in emission order, and nothing passed over but what was delivered or forgotten. */
  ghost predicate ExactlyOnce(c: Client) {
    exists places :: GivenAt(c, places)
  }

  lemma GivenAtLater(c: Client, t: State, places: seq<nat>)
    requires GivenAt(c, places) && Extends(c.state, t)
    ensures GivenAt(c.(state := t), places)
  {
  }

  lemma FindCursor(cfg: Config, s: State, places: seq<nat>, after: Option<Id>)
    requires LogOk(cfg, s.events, s.history, s.drawn, s.clock)
    requires Ahead(places) < |s.history| && (if places == [] then after.None? else after == Some(s.history[Ahead(places)].id))
    ensures var start := PageStart(s.events, after);
            Dropped(s) + start == if Ahead(places) + 1 < Dropped(s) then Dropped(s) else Ahead(places) + 1
  {
    KeptEvents(cfg, s);
    if places != [] && Ahead(places) >= Dropped(s) {
      var k := Ahead(places) - Dropped(s);
      assert s.events[k].event.id == after.value;
    }
  }

  function Shift(ks: seq<nat>, d: nat): (r: seq<nat>)
    ensures |r| == |ks| && forall i :: 0 <= i < |r| ==> r[i] == ks[i] + d
  {
    if ks == [] then [] else Shift(ks[..|ks| - 1], d) + [ks[|ks| - 1] + d]
  }

  lemma JoinIncreasing(a: seq<nat>, b: seq<nat>)
    requires Increasing(a) && Increasing(b) && forall i :: 0 <= i < |b| ==> b[i] > Ahead(a)
    ensures Increasing(a + b)
    ensures forall x :: x in a + b <==> x in a || x in b
    ensures b == [] ==> Ahead(a + b) == Ahead(a)
    ensures b != [] ==> Ahead(a + b) == b[|b| - 1] > Ahead(a)
  {
    forall i, j | 0 <= i < j < |a + b|
      ensures (a + b)[i] < (a + b)[j]
    {
      if i < |a| <= j {
        assert a[i] <= Ahead(a) < b[j - |a|];
      }
    }
  }

  /** The places in the history of the page read with a client's cursor. */
  function PageInHistory(s: State, after: Option<Id>): seq<nat>
    requires Dropped(s) >= 0
  {
    Shift(PagePlaces(s.events, after), Dropped(s))
  }

  /** A page lies after the client's cursor. */
  lemma PageIsAhead(cfg: Config, s: State, places: seq<nat>, after: Option<Id>)
    requires LogOk(cfg, s.events, s.history, s.drawn, s.clock)
    requires Ahead(places) < |s.history| && (if places == [] then after.None? else after == Some(s.history[Ahead(places)].id))
    ensures var page := PageInHistory(s, after);
            Increasing(page) && forall i :: 0 <= i < |page| ==> Ahead(places) < page[i]
  {
    hide PageOf, PagePlaces, PageStart, LogOk, Increasing, Ahead;
    KeptEvents(cfg, s);
    var ks := PagePlaces(s.events, after);
    PageExactly(s.events, after);
    FindCursor(cfg, s, places, after);
    ShiftIncreasing(ks, Dropped(s));
  }

  /** A page's events are those of the history at its places, and its cursor names the last of them. */
  lemma PageMatches(cfg: Config, s: State, after: Option<Id>)
    requires LogOk(cfg, s.events, s.history, s.drawn, s.clock)
    ensures var page, body := PageInHistory(s, after), PageOf(s.events, after);
            && Matches(s.history, body.events, page)
            && body.cursor == (if page == [] then after else Some(s.history[page[|page| - 1]].id))
  {
    hide PageOf, PagePlaces, PageStart, LogOk;
    PageFields(s.events, after);
    KeptEvents(cfg, s);
  }

  lemma ShiftIncreasing(ks: seq<nat>, d: nat)
    requires Increasing(ks)
    ensures Increasing(Shift(ks, d))
  {
    hide Shift;
  }

  lemma KeptEvents(cfg: Config, s: State)
    requires LogOk(cfg, s.events, s.history, s.drawn, s.clock)
    ensures Dropped(s) >= 0 && Dropped(s) + |s.events| == |s.history|
    ensures forall k :: 0 <= k < |s.events| ==> s.events[k].event == s.history[Dropped(s) + k]
  {
  }

  lemma PageCovers(cfg: Config, s: State, places: seq<nat>, after: Option<Id>, p: nat)
    requires LogOk(cfg, s.events, s.history, s.drawn, s.clock)
    requires Ahead(places) < |s.history| && (if places == [] then after.None? else after == Some(s.history[Ahead(places)].id))
    requires Ahead(places) < p < |s.history| && p >= Dropped(s) && !Delivered(s, p)
    ensures var page := PageInHistory(s, after);
            p in page || (page != [] && p > page[|page| - 1] && PageOf(s.events, after).more)
  {
    hide PageOf, PagePlaces, PageStart, LogOk, Increasing, Ahead;
    KeptEvents(cfg, s);
    var ks, d, page := PagePlaces(s.events, after), Dropped(s), PageInHistory(s, after);
    PageExactly(s.events, after);
    FindCursor(cfg, s, places, after);
    if p - d in ks {
      var i :| 0 <= i < |ks| && ks[i] == p - d;
      assert page[i] == p;
    }
  }

  /** A page read at a state whose log has moved on since the client's last one. */
  lemma PageGiven(cfg: Config, c: Client, places: seq<nat>)
    requires LogOk(cfg, c.state.events, c.state.history, c.state.drawn, c.state.clock) && GivenAt(c, places)
    ensures var body, more := PageOf(c.state.events, c.cursor), places + PageInHistory(c.state, c.cursor);
            && GivenAt(Client(c.state, body.cursor, c.got + body.events), more)
            && (!body.more ==> forall p :: 0 <= p < |c.state.history| ==> p in more || p < Dropped(c.state) || Delivered(c.state, p))
  {
    hide PageOf, PageInHistory, Increasing, LogOk, Matches, Delivered;
    AheadInRange(c.state.history, c.got, places);
    KeptEvents(cfg, c.state);
    var body, page := PageOf(c.state.events, c.cursor), PageInHistory(c.state, c.cursor);
    PageIsAhead(cfg, c.state, places, c.cursor);
    PageMatches(cfg, c.state, c.cursor);
    JoinIncreasing(places, page);
    MatchJoined(c.state.history, c.got, places, body.events, page);
    var more := places + page;
    forall p | 0 <= p < |c.state.history| && !(p in more || p < Dropped(c.state) || Delivered(c.state, p))
      ensures p > Ahead(more) && body.more
    {
      PageCovers(cfg, c.state, places, c.cursor, p);
    }
  }

  lemma AheadInRange(history: seq<Event>, events: seq<Event>, places: seq<nat>)
    requires Matches(history, events, places)
    ensures Ahead(places) < |history|
  {
  }

  ghost predicate Matches(history: seq<Event>, events: seq<Event>, places: seq<nat>) {
    |places| == |events| && forall i :: 0 <= i < |places| ==> places[i] < |history| && events[i] == history[places[i]]
  }

  lemma MatchJoined(history: seq<Event>, a: seq<Event>, p: seq<nat>, b: seq<Event>, q: seq<nat>)
    requires Matches(history, a, p) && Matches(history, b, q)
    ensures Matches(history, a + b, p + q)
  {
  }

  lemma PageFields(es: seq<Logged>, after: Option<Id>)
    ensures var body, ks := PageOf(es, after), PagePlaces(es, after);
            && body.EventsBody?
            && |body.events| == |ks| && (forall i :: 0 <= i < |ks| ==> body.events[i] == es[ks[i]].event)
            && body.cursor == if ks == [] then after else Some(es[ks[|ks| - 1]].event.id)
  {
  }

  /** A poll of a client reads one page of the state left by forgetting and ageing. */
  lemma PollReads(cfg: Config, c: Client, at: Time)
    requires Valid(cfg, c.state) && at >= c.state.clock
    ensures var t := Step(cfg, c.state, CallHttp(true, true, GetEvents(c.cursor)), at).0;
            && Valid(cfg, t) && Extends(c.state, t) && t.clock == at
            && ClientStep(cfg, c, Poll(at)) == Client(t, PageOf(t.events, c.cursor).cursor, c.got + PageOf(t.events, c.cursor).events)
  {
    hide Valid, Extends, Forget, AgeFrom, AgeRefundsFrom, PagePlaces, PageStart;
    var op := CallHttp(true, true, GetEvents(c.cursor));
    StepValid(cfg, c.state, op, at);
    StepExtends(cfg, c.state, op, at);
  }

  lemma ClientStepOnce(cfg: Config, c: Client, move: Move)
    requires Valid(cfg, c.state) && move.at >= c.state.clock && ExactlyOnce(c)
    ensures var d := ClientStep(cfg, c, move); Valid(cfg, d.state) && d.state.clock == move.at && ExactlyOnce(d)
  {
    hide Valid, Extends, GivenAt, PageOf, Step;
    var places :| GivenAt(c, places);
    match move
    case Other(op, at) =>
      StepValid(cfg, c.state, op, at);
      StepExtends(cfg, c.state, op, at);
      GivenAtLater(c, Step(cfg, c.state, op, at).0, places);
    case Poll(at) =>
      PollReads(cfg, c, at);
      var t := Step(cfg, c.state, CallHttp(true, true, GetEvents(c.cursor)), at).0;
      GivenAtLater(c, t, places);
      LogPart(cfg, t);
      PageGiven(cfg, c.(state := t), places);
  }

  lemma LogPart(cfg: Config, s: State)
    requires Valid(cfg, s)
    ensures LogOk(cfg, s.events, s.history, s.drawn, s.clock)
  {
  }

  predicate MovesInOrder(clock: Time, moves: seq<Move>)
    decreases |moves|
  {
    moves == [] || (moves[0].at >= clock && MovesInOrder(moves[0].at, moves[1..]))
  }

  function ClientRun(cfg: Config, c: Client, moves: seq<Move>): Client
    decreases |moves|
  {
    if moves == [] then c else ClientRun(cfg, ClientStep(cfg, c, moves[0]), moves[1..])
  }

  lemma {:induction false} ClientRunOnce(cfg: Config, c: Client, moves: seq<Move>)
    requires Valid(cfg, c.state) && MovesInOrder(c.state.clock, moves) && ExactlyOnce(c)
    ensures Valid(cfg, ClientRun(cfg, c, moves).state) && ExactlyOnce(ClientRun(cfg, c, moves))
    decreases |moves|
  {
    hide Valid, ExactlyOnce, ClientStep;
    if moves != [] {
      ClientStepOnce(cfg, c, moves[0]);
      ClientRunOnce(cfg, ClientStep(cfg, c, moves[0]), moves[1..]);
    }
  }

  /** What exactly-once paging means for the events themselves. */
  ghost predicate NothingLost(cfg: Config, c: Client) {
    // no event twice
    && (forall i, j :: 0 <= i < j < |c.got| ==> c.got[i].id != c.got[j].id)
    // in the order they were emitted
    && (exists places :: Matches(c.state.history, c.got, places) && Increasing(places))
    && (forall i, j :: 0 <= i < j < |c.got| ==> c.got[i].occurredAt <= c.got[j].occurredAt)
    // passed over: given, delivered, or older than a lifetime
    && (c.cursor.Some? ==>
          forall p, q :: 0 <= p <= q < |c.state.history| && c.state.history[q].id == c.cursor.value ==>
            || c.state.history[p] in c.got
            || Delivered(c.state, p)
            || c.state.clock - c.state.history[p].occurredAt > cfg.lifetime)
  }

  /** For every client from its first call on, and every interleaving with any other calls. */
  lemma PagingIsExactlyOnce(cfg: Config, s: State, moves: seq<Move>)
    requires Reachable(cfg, s) && MovesInOrder(s.clock, moves)
    ensures NothingLost(cfg, ClientRun(cfg, Client(s, None, []), moves))
  {
    hide Valid, ClientRun;
    ReachableValid(cfg, s);
    assert GivenAt(Client(s, None, []), []);
    ClientRunOnce(cfg, Client(s, None, []), moves);
    var c := ClientRun(cfg, Client(s, None, []), moves);
    LogPart(cfg, c.state);
    var places :| GivenAt(c, places);
    hide ExactlyOnce;
    OnceMeansNothingLost(cfg, c, places);
  }

  lemma OnceMeansNothingLost(cfg: Config, c: Client, places: seq<nat>)
    requires LogOk(cfg, c.state.events, c.state.history, c.state.drawn, c.state.clock) && GivenAt(c, places)
    ensures NothingLost(cfg, c)
  {
    var h := c.state.history;
    forall p, q | 0 <= p <= q < |h| && c.cursor == Some(h[q].id)
      ensures h[p] in c.got || Delivered(c.state, p) || c.state.clock - h[p].occurredAt > cfg.lifetime
    {
      assert q == Ahead(places);
      if p in places {
        var i :| 0 <= i < |places| && places[i] == p;
        assert c.got[i] == h[p];
      }
    }
  }

  /** A poll that says there is no more has given everything kept that was neither given before nor delivered. */
  lemma LastPageLeavesNothing(cfg: Config, s: State, moves: seq<Move>, at: Time, p: nat)
    requires Reachable(cfg, s) && MovesInOrder(s.clock, moves)
    requires var c := ClientRun(cfg, Client(s, None, []), moves);
             at >= c.state.clock && var d := ClientStep(cfg, c, Poll(at)); p < |d.state.history| && !PageOf(d.state.events, c.cursor).more
    ensures var d := ClientStep(cfg, ClientRun(cfg, Client(s, None, []), moves), Poll(at));
            || d.state.history[p] in d.got
            || Delivered(d.state, p)
            || at - d.state.history[p].occurredAt > cfg.lifetime
  {
    hide Valid, ClientRun, Extends, Step;
    ReachableValid(cfg, s);
    assert GivenAt(Client(s, None, []), []);
    ClientRunOnce(cfg, Client(s, None, []), moves);
    var c := ClientRun(cfg, Client(s, None, []), moves);
    var places :| GivenAt(c, places);
    hide GivenAt, PageOf, ExactlyOnce;
    PollReads(cfg, c, at);
    var d := ClientStep(cfg, c, Poll(at));
    LogPart(cfg, d.state);
    GivenAtLater(c, d.state, places);
    PageGiven(cfg, c.(state := d.state), places);
    GivenIs(cfg, d, places + PageInHistory(d.state, c.cursor), p);
  }

  lemma GivenIs(cfg: Config, d: Client, places: seq<nat>, p: nat)
    requires LogOk(cfg, d.state.events, d.state.history, d.state.drawn, d.state.clock) && GivenAt(d, places) && p < |d.state.history|
    ensures p in places ==> d.state.history[p] in d.got
    ensures p < Dropped(d.state) ==> d.state.clock - d.state.history[p].occurredAt > cfg.lifetime
  {
    if p in places {
      var i :| 0 <= i < |places| && places[i] == p;
      assert d.got[i] == d.state.history[p];
    }
  }
}
