/** session.ts of the Postgres adapter: the session's settings, as startup options and as a `SET LOCAL` prelude. */
module SessionSettings {
  import opened Wrappers

  /** A setting and its value. */
  type Pairs = seq<(string, string)>

  function Join(parts: seq<string>): string {
    if parts == [] then "" else if |parts| == 1 then parts[0] else parts[0] + " " + Join(parts[1..])
  }

  function OptionTexts(pairs: Pairs): seq<string> {
    if pairs == [] then [] else ["-c " + pairs[0].0 + "=" + pairs[0].1] + OptionTexts(pairs[1..])
  }

  function SetTexts(pairs: Pairs): seq<string> {
    if pairs == [] then [] else ["SET LOCAL " + pairs[0].0 + " = '" + pairs[0].1 + "';"] + SetTexts(pairs[1..])
  }

  function StartupOptions(pairs: Pairs): string {
    Join(OptionTexts(pairs))
  }

  function Prelude(pairs: Pairs): string {
    Join(SetTexts(pairs))
  }

  /** `buildSessionSettings`, before it is written out. */
  function SettingsFor(statementTimeout: string, introspect: bool, timeZone: Option<string>): Pairs {
    [("statement_timeout", statementTimeout)]
    + (if introspect then [("lock_timeout", "2s"), ("idle_in_transaction_session_timeout", "10s")] else [])
    + (match timeZone case Some(zone) => [("TimeZone", zone)] case None => [])
  }

  /** The operator's own options first, ours last; what is absent leaves no space behind. */
  function Composed(own: Option<string>, ours: Option<string>): string {
    Join((if own.Some? then [own.value] else []) + (if ours.Some? then [ours.value] else []))
  }

  predicate EndsWith(s: string, suffix: string) {
    |suffix| <= |s| && s[|s| - |suffix|..] == suffix
  }

  /** The operator's options open every composed text and ours close it. */
  lemma ComposedHolds(own: Option<string>, ours: Option<string>)
    ensures own.Some? ==> own.value <= Composed(own, ours)
    ensures ours.Some? ==> EndsWith(Composed(own, ours), ours.value)
    ensures own.Some? && ours.Some? ==> Composed(own, ours) == own.value + " " + ours.value
    ensures own.None? ==> Composed(own, ours) == if ours.Some? then ours.value else ""
    ensures ours.None? ==> Composed(own, ours) == if own.Some? then own.value else ""
  {
    if own.Some? && ours.Some? {
      var parts := [own.value] + [ours.value];
      assert parts[1..] == [ours.value] && Join([ours.value]) == ours.value;
      assert Join(parts) == own.value + " " + ours.value;
    }
  }

  lemma StartupOptionsEmpty(pairs: Pairs)
    ensures StartupOptions(pairs) == "" <==> pairs == []
  {
    if |pairs| == 1 {
      assert pairs == [pairs[0]];
    }
  }

  // ---- what the server reads ----------------------------------------------

  /** The text before the first `stop`, and the text after it. */
  function Cut(text: string, stop: string): (parts: Option<(string, string)>)
    requires stop != ""
    ensures parts.Some? ==> |parts.value.1| < |text|
  {
    if |text| >= |stop| && text[..|stop|] == stop then Some(("", text[|stop|..]))
    else if text == "" then None
    else
      match Cut(text[1..], stop)
      case None => None
      case Some(parts) => Some(([text[0]] + parts.0, parts.1))
  }

  /** The settings of startup options: `-c <key>=<value>`, blanks between them. */
  function ReadOptions(text: string): Option<Pairs>
    decreases |text|
  {
    if text == "" then Some([])
    else if |text| < 3 || text[..3] != "-c " then None
    else
      match Cut(text[3..], "=")
      case None => None
      case Some((key, more)) =>
        match Cut(more, " ")
        case None => Some([(key, more)])
        case Some((value, rest)) => (match ReadOptions(rest) case None => None case Some(pairs) => Some([(key, value)] + pairs))
  }

  /** The settings of statements `SET LOCAL <key> = '<value>';`, blanks between them. */
  function ReadSets(text: string): Option<Pairs>
    decreases |text|
  {
    if text == "" then Some([])
    else if |text| < 10 || text[..10] != "SET LOCAL " then None
    else
      match Cut(text[10..], " = '")
      case None => None
      case Some((key, more)) =>
        match Cut(more, "';")
        case None => None
        case Some((value, rest)) =>
          if rest == "" then Some([(key, value)])
          else if rest[0] != ' ' then None
          else match ReadSets(rest[1..]) case None => None case Some(pairs) => Some([(key, value)] + pairs)
  }

  /** No key or value holds what ends it: a blank, a quote, or in a key an equals sign. */
  predicate Plain(pairs: Pairs) {
    forall k :: 0 <= k < |pairs| ==> PlainPair(pairs[k])
  }

  predicate PlainPair(pair: (string, string)) {
    ' ' !in pair.0 && '=' !in pair.0 && ' ' !in pair.1 && '\'' !in pair.1
  }

  lemma {:induction false} CutAt(a: string, stop: string, rest: string)
    requires stop != "" && stop[0] !in a
    ensures Cut(a + (stop + rest), stop) == Some((a, rest))
  {
    var text := a + (stop + rest);
    if a == "" {
      assert text == stop + rest;
      assert text[..|stop|] == stop && text[|stop|..] == rest;
    } else {
      assert a[0] in a && forall c :: c in a[1..] ==> c in a;
      CutAt(a[1..], stop, rest);
      assert text[1..] == a[1..] + (stop + rest) && text[0] == a[0] && a == [a[0]] + a[1..];
      assert |text| >= |stop| ==> text[..|stop|][0] != stop[0];
    }
  }

  lemma {:induction false} CutNone(a: string, stop: string)
    requires stop != "" && stop[0] !in a
    ensures Cut(a, stop) == None
  {
    if a != "" {
      CutNone(a[1..], stop);
      assert |a| >= |stop| ==> a[..|stop|][0] != stop[0];
    }
  }

  lemma OneOption(key: string, value: string, rest: string, last: bool)
    requires '=' !in key && ' ' !in value && (last ==> rest == "")
    ensures var text := "-c " + (key + ("=" + (value + (if last then "" else " " + rest))));
            ReadOptions(text) == if last then Some([(key, value)])
                                 else match ReadOptions(rest) case None => None case Some(pairs) => Some([(key, value)] + pairs)
  {
    hide Cut;
    var more := value + (if last then "" else " " + rest);
    var text := "-c " + (key + ("=" + more));
    assert text[..3] == "-c " && text[3..] == key + ("=" + more);
    CutAt(key, "=", more);
    if last {
      assert more == value;
      CutNone(value, " ");
    } else {
      CutAt(value, " ", rest);
    }
  }

  lemma {:induction false} OptionsAreRead(pairs: Pairs)
    requires Plain(pairs)
    ensures ReadOptions(StartupOptions(pairs)) == Some(pairs)
  {
    hide ReadOptions, StartupOptions, Plain;
    PlainFirst(pairs);
    if pairs == [] {
      NoTexts();
      NothingRead();
    } else {
      var key, value, rest := pairs[0].0, pairs[0].1, StartupOptions(pairs[1..]);
      OptionsGoOn(pairs);
      if |pairs| == 1 {
        OneOption(key, value, "", true);
        assert pairs == [(key, value)];
      } else {
        OneOption(key, value, rest, false);
        OptionsAreRead(pairs[1..]);
      }
      assert pairs[0] == (key, value) && pairs == [pairs[0]] + pairs[1..];
    }
  }

  lemma PlainFirst(pairs: Pairs)
    requires Plain(pairs)
    ensures pairs != [] ==> PlainPair(pairs[0]) && Plain(pairs[1..])
  {
    hide PlainPair;
  }

  lemma NoTexts()
    ensures StartupOptions([]) == "" && Prelude([]) == ""
  {
  }

  lemma NothingRead()
    ensures ReadOptions("") == Some([]) && ReadSets("") == Some([])
  {
  }

  lemma OptionsGoOn(pairs: Pairs)
    requires pairs != []
    ensures StartupOptions(pairs) ==
            "-c " + (pairs[0].0 + ("=" + (pairs[0].1 + (if |pairs| == 1 then "" else " " + StartupOptions(pairs[1..])))))
  {
    var key, value := pairs[0].0, pairs[0].1;
    var first := "-c " + key + "=" + value;
    assert first == "-c " + (key + ("=" + value));
    if |pairs| == 1 {
      assert OptionTexts(pairs) == [first];
      assert value + "" == value;
    } else {
      assert OptionTexts(pairs) == [first] + OptionTexts(pairs[1..]);
      TextsGoOn(first, OptionTexts(pairs[1..]));
      Regroup("-c ", key, "=", value, " " + StartupOptions(pairs[1..]));
    }
  }

  lemma Regroup(a: string, b: string, c: string, d: string, e: string)
    ensures (a + (b + (c + d))) + e == a + (b + (c + (d + e)))
  {
    assert (c + d) + e == c + (d + e);
    assert (b + (c + d)) + e == b + ((c + d) + e);
  }

  lemma TextsGoOn(first: string, rest: seq<string>)
    requires rest != []
    ensures Join([first] + rest) == first + (" " + Join(rest))
  {
    assert ([first] + rest)[1..] == rest;
    assert first + " " + Join(rest) == first + (" " + Join(rest));
  }

  lemma OneSet(key: string, value: string, rest: string, last: bool)
    requires ' ' !in key && '\'' !in value && (last ==> rest == "")
    ensures var text := "SET LOCAL " + (key + (" = '" + (value + ("';" + (if last then "" else " " + rest)))));
            ReadSets(text) == if last then Some([(key, value)])
                              else match ReadSets(rest) case None => None case Some(pairs) => Some([(key, value)] + pairs)
  {
    hide Cut;
    var after := if last then "" else " " + rest;
    var more := value + ("';" + after);
    var text := "SET LOCAL " + (key + (" = '" + more));
    assert text[..10] == "SET LOCAL " && text[10..] == key + (" = '" + more);
    CutAt(key, " = '", more);
    CutAt(value, "';", after);
    if !last {
      assert after[0] == ' ' && after[1..] == rest;
    }
  }

  lemma {:induction false} SetsAreRead(pairs: Pairs)
    requires Plain(pairs)
    ensures ReadSets(Prelude(pairs)) == Some(pairs)
  {
    hide ReadSets, Prelude, Plain;
    PlainFirst(pairs);
    if pairs == [] {
      NoTexts();
      NothingRead();
    } else {
      var key, value, rest := pairs[0].0, pairs[0].1, Prelude(pairs[1..]);
      SetsGoOn(pairs);
      if |pairs| == 1 {
        OneSet(key, value, "", true);
        assert pairs == [(key, value)];
      } else {
        OneSet(key, value, rest, false);
        SetsAreRead(pairs[1..]);
      }
      assert pairs[0] == (key, value) && pairs == [pairs[0]] + pairs[1..];
    }
  }

  lemma SetsGoOn(pairs: Pairs)
    requires pairs != []
    ensures Prelude(pairs) ==
            "SET LOCAL " + (pairs[0].0 + (" = '" + (pairs[0].1 + ("';" + (if |pairs| == 1 then "" else " " + Prelude(pairs[1..]))))))
  {
    var key, value := pairs[0].0, pairs[0].1;
    var first := "SET LOCAL " + key + " = '" + value + "';";
    assert first == "SET LOCAL " + (key + (" = '" + (value + "';")));
    if |pairs| == 1 {
      assert SetTexts(pairs) == [first];
      assert "';" + "" == "';";
    } else {
      assert SetTexts(pairs) == [first] + SetTexts(pairs[1..]);
      TextsGoOn(first, SetTexts(pairs[1..]));
      SetsRegroup("SET LOCAL ", key, " = '", value, "';", " " + Prelude(pairs[1..]));
    }
  }

  lemma SetsRegroup(a: string, b: string, c: string, d: string, e: string, f: string)
    ensures (a + (b + (c + (d + e)))) + f == a + (b + (c + (d + (e + f))))
  {
    Regroup(a, b, c, d + e, f);
    assert (d + e) + f == d + (e + f);
  }

  /** The two forms say the same: both read back as the settings they were written from. */
  lemma BothFormsAreRead(pairs: Pairs)
    requires Plain(pairs)
    ensures ReadOptions(StartupOptions(pairs)) == Some(pairs) && ReadSets(Prelude(pairs)) == Some(pairs)
  {
    hide ReadOptions, ReadSets, StartupOptions, Prelude;
    OptionsAreRead(pairs);
    SetsAreRead(pairs);
  }

  /** What a setting comes to: its last assignment. */
  function Setting(pairs: Pairs, key: string): Option<string> {
    if pairs == [] then None
    else if pairs[|pairs| - 1].0 == key then Some(pairs[|pairs| - 1].1)
    else Setting(pairs[..|pairs| - 1], key)
  }

  lemma SettingMore(pairs: Pairs, key: string, value: string, asked: string)
    ensures Setting(pairs + [(key, value)], asked) == if key == asked then Some(value) else Setting(pairs, asked)
  {
    assert (pairs + [(key, value)])[..|pairs|] == pairs;
  }

  /** Which settings a session gets: the statement limit always, the other limits for introspection, the zone if there is one. */
  lemma SettingsAre(timeout: string, introspect: bool, zone: Option<string>, key: string)
    ensures Setting(SettingsFor(timeout, introspect, zone), key) ==
            if key == "statement_timeout" then Some(timeout)
            else if key == "lock_timeout" then (if introspect then Some("2s") else None)
            else if key == "idle_in_transaction_session_timeout" then (if introspect then Some("10s") else None)
            else if key == "TimeZone" then zone
            else None
  {
    hide Setting;
    var one := [("statement_timeout", timeout)];
    NoSetting(key);
    SettingMore([], "statement_timeout", timeout, key);
    assert [] + one == one;
    SettingMore(one, "lock_timeout", "2s", key);
    var two := one + [("lock_timeout", "2s")];
    SettingMore(two, "idle_in_transaction_session_timeout", "10s", key);
    assert two + [("idle_in_transaction_session_timeout", "10s")] == one + [("lock_timeout", "2s"), ("idle_in_transaction_session_timeout", "10s")];
    var limits := if introspect then one + [("lock_timeout", "2s"), ("idle_in_transaction_session_timeout", "10s")] else one;
    if zone.Some? {
      SettingMore(limits, "TimeZone", zone.value, key);
    }
    assert one + [] == one && limits + [] == limits;
    assert SettingsFor(timeout, introspect, zone) == limits + (match zone case Some(z) => [("TimeZone", z)] case None => []);
  }

  lemma NoSetting(key: string)
    ensures Setting([], key) == None
  {
  }

  lemma PlainLimit()
    ensures ' ' !in "statement_timeout" && '=' !in "statement_timeout" && ' ' !in "TimeZone" && '=' !in "TimeZone"
  {
  }

  lemma PlainLock()
    ensures PlainPair(("lock_timeout", "2s"))
  {
  }

  lemma PlainIdle()
    ensures PlainPair(("idle_in_transaction_session_timeout", "10s"))
  {
    var name := "idle_in_transaction_session_timeout";
    assert ' ' !in name;
    assert '=' !in name;
  }

  /** A limit in digits and a zone's name make plain settings. */
  lemma SettingsArePlain(timeout: string, introspect: bool, zone: Option<string>)
    requires ' ' !in timeout && '\'' !in timeout && (zone.Some? ==> ' ' !in zone.value && '\'' !in zone.value)
    ensures Plain(SettingsFor(timeout, introspect, zone))
  {
    hide PlainPair;
    PlainLimit();
    PlainLock();
    PlainIdle();
    var pairs := SettingsFor(timeout, introspect, zone);
    assert PlainPair(("statement_timeout", timeout)) by { PlainOf("statement_timeout", timeout); }
    if zone.Some? {
      PlainOf("TimeZone", zone.value);
    }
    assert forall k :: 0 <= k < |pairs| ==> PlainPair(pairs[k]);
  }

  lemma PlainOf(key: string, value: string)
    requires ' ' !in key && '=' !in key && ' ' !in value && '\'' !in value
    ensures PlainPair((key, value))
  {
  }
}
