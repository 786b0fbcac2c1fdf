/** The versioned candlestick chart cache of the exchange bot, whose readers fetch the version
    in one critical section and encode in a later one (exchanges/bot.go). */
module ChartCache {
  import opened Types

  /** Candlesticks of one bin; the encoded chart is identified with the sticks it encodes. */
  type Sticks = seq<int>

  /** A cached chart and the version it was encoded for. */
  datatype VersionedChart = VersionedChart(dataID: int, chart: Sticks)

  /** An exchange update: a DCR state or that of another coin. */
  datatype Update = Update(token: string, isDcr: bool, candlesticks: Option<map<string, Sticks>>, hasDepth: bool)

  const ORDERBOOK_KEY := "depth"
  const AGGREGATED := "aggregated"
  const BTC_AGGREGATED := "btc_aggregated"

  predicate Clean(s: string) {
    '-' !in s
  }

  /** genCacheID of a token and a bin. */
  function CacheID(token: string, bin: string): string {
    token + "-" + bin
  }

  lemma JoinedAt(token: string, bin: string)
    ensures |CacheID(token, bin)| == |token| + 1 + |bin|
    ensures CacheID(token, bin)[|token|] == '-'
    ensures CacheID(token, bin)[..|token|] == token && CacheID(token, bin)[|token| + 1..] == bin
  {
  }

  lemma OnlyDash(token: string, bin: string, i: nat)
    requires Clean(token) && Clean(bin) && i < |CacheID(token, bin)| && CacheID(token, bin)[i] == '-'
    ensures i == |token|
  {
  }

  /** The id of a clean token and bin is nobody else's, whatever strings are asked for. */
  lemma CacheIDInjective(token: string, bin: string, token': string, bin': string)
    requires Clean(token) && Clean(bin) && CacheID(token, bin) == CacheID(token', bin')
    ensures token == token' && bin == bin'
  {
    JoinedAt(token, bin);
    JoinedAt(token', bin');
    OnlyDash(token, bin, |token'|);
  }

  function VersionOf(versions: map<string, int>, id: string): int {
    if id in versions then versions[id] else -1
  }

  /** The versions after incrementing the charts of `ids` one after the other. */
  function Bumped(versions: map<string, int>, ids: seq<string>): map<string, int> {
    if ids == [] then versions else
      var v, id := Bumped(versions, ids[..|ids| - 1]), ids[|ids| - 1];
      v[id := VersionOf(v, id) + 1]
  }

  lemma BumpedSnoc(versions: map<string, int>, ids: seq<string>, id: string)
    ensures Bumped(versions, ids + [id]) == Bumped(versions, ids)[id := VersionOf(Bumped(versions, ids), id) + 1]
  {
    assert (ids + [id])[..|ids|] == ids;
  }

  /** No version goes down, and those of the incremented charts go up. */
  lemma {:induction false} BumpedUp(versions: map<string, int>, ids: seq<string>)
    ensures forall id :: VersionOf(Bumped(versions, ids), id) >= VersionOf(versions, id)
    ensures forall i :: 0 <= i < |ids| ==> VersionOf(Bumped(versions, ids), ids[i]) > VersionOf(versions, ids[i])
    ensures (forall id :: id in versions ==> versions[id] >= 0) ==>
              forall id :: id in Bumped(versions, ids) ==> Bumped(versions, ids)[id] >= 0
  {
    if ids != [] {
      var p := ids[..|ids| - 1];
      BumpedUp(versions, p);
      forall i | 0 <= i < |ids| ensures VersionOf(Bumped(versions, ids), ids[i]) > VersionOf(versions, ids[i]) {
        if i < |p| { assert p[i] == ids[i]; }
      }
    }
  }

  function BinIds(token: string, order: seq<string>): (r: seq<string>)
    ensures |r| == |order| && forall i :: 0 <= i < |r| ==> r[i] == CacheID(token, order[i])
  {
    seq(|order|, i requires 0 <= i < |order| => CacheID(token, order[i]))
  }

  function DepthIds(token: string): seq<string> {
    [CacheID(token, ORDERBOOK_KEY), CacheID(AGGREGATED, ORDERBOOK_KEY), CacheID(BTC_AGGREGATED, ORDERBOOK_KEY)]
  }

  /** The charts whose version an update increments. */
  function BumpIds(u: Update, order: seq<string>): seq<string> {
    BinIds(u.token, order) + if u.hasDepth then DepthIds(u.token) else []
  }

  /** No version goes down, and those of the updated bins go up. */
  ghost predicate AllUp(versions: map<string, int>, v: map<string, int>, u: Update) {
    && (forall id :: VersionOf(v, id) >= VersionOf(versions, id))
    && (u.candlesticks.Some? ==> forall bin {:trigger CacheID(u.token, bin)} :: bin in u.candlesticks.value ==>
          Clean(bin) && VersionOf(v, CacheID(u.token, bin)) > VersionOf(versions, CacheID(u.token, bin)))
    && (forall id :: VersionOf(versions, id) >= -1)
    && (u.hasDepth ==> DepthUp(versions, v, u.token))
  }

  /** The depth charts of an exchange, of all exchanges and of all BTC ones get a new version. */
  predicate DepthUp(versions: map<string, int>, v: map<string, int>, token: string) {
    && VersionOf(v, CacheID(token, "depth")) > VersionOf(versions, CacheID(token, "depth"))
    && VersionOf(v, "aggregated-depth") > VersionOf(versions, "aggregated-depth")
    && VersionOf(v, "btc_aggregated-depth") > VersionOf(versions, "btc_aggregated-depth")
  }

  lemma BumpsUp(versions: map<string, int>, u: Update, order: seq<string>)
    requires forall id :: id in versions ==> versions[id] >= 0
    requires Elems(order) == if u.candlesticks.Some? then u.candlesticks.value.Keys else {}
    requires forall i :: 0 <= i < |order| ==> Clean(order[i])
    ensures var v := Bumped(versions, BumpIds(u, order));
            AllUp(versions, v, u) && forall id :: id in v ==> v[id] >= 0
  {
    var ids := BumpIds(u, order);
    BumpedUp(versions, ids);
    if u.candlesticks.Some? {
      forall bin | bin in u.candlesticks.value
        ensures Clean(bin) && VersionOf(Bumped(versions, ids), CacheID(u.token, bin)) > VersionOf(versions, CacheID(u.token, bin))
      {
        assert bin in Elems(order);
        var i :| 0 <= i < |order| && order[i] == bin;
        assert ids[i] == CacheID(u.token, bin);
      }
    }
    if u.hasDepth {
      var n := |order|;
      assert ids[n] == CacheID(u.token, "depth") && ids[n + 1] == "aggregated-depth" && ids[n + 2] == "btc_aggregated-depth";
    }
  }

  class ExchangeBot {
    var chartVersions: map<string, int>
    var versionedCharts: map<string, VersionedChart>
    var dcrStates: map<string, Option<map<string, Sticks>>>
    /** The candlesticks most recently received for each DCR token and bin. */
    ghost var latest: map<(string, string), Sticks>

    /** A cached chart whose version is current holds the latest sticks of its token and bin. */
    ghost predicate ChartOk(id: string)
      reads this
      requires id in versionedCharts
    {
      && versionedCharts[id].dataID <= VersionOf(chartVersions, id)
      && exists token, bin :: IsFor(id, token, bin)
    }

    /** `id` is the chart of this token and bin, and is fresh if its version is current. */
    ghost predicate IsFor(id: string, token: string, bin: string)
      reads this
      requires id in versionedCharts
    {
      && Clean(token) && Clean(bin) && id == CacheID(token, bin)
      && (versionedCharts[id].dataID == VersionOf(chartVersions, id) ==>
            (token, bin) in latest && versionedCharts[id].chart == latest[(token, bin)])
    }

    /** The stored sticks are the latest ones, and have a version. */
    ghost predicate StateOk(token: string)
      reads this
      requires token in dcrStates
    {
      dcrStates[token].Some? ==> forall bin :: bin in dcrStates[token].value ==>
        && Clean(token) && Clean(bin)
        && (token, bin) in latest && latest[(token, bin)] == dcrStates[token].value[bin]
        && VersionOf(chartVersions, CacheID(token, bin)) >= 0
    }

    ghost predicate Valid()
      reads this
    {
      && (forall id :: id in chartVersions ==> chartVersions[id] >= 0)
      && (forall id :: id in versionedCharts ==> ChartOk(id))
      && (forall token :: token in dcrStates ==> StateOk(token))
    }

    constructor ()
      ensures Valid() && chartVersions == map[] && versionedCharts == map[] && dcrStates == map[] && latest == map[]
    {
      chartVersions, versionedCharts, dcrStates, latest := map[], map[], map[], map[];
    }

    method IncrementChart(id: string)
      modifies this`chartVersions
      ensures chartVersions == old(chartVersions)[id := VersionOf(old(chartVersions), id) + 1]
    {
      if id in chartVersions {
        chartVersions := chartVersions[id := chartVersions[id] + 1];
      } else {
        chartVersions := chartVersions[id := 0];
      }
    }

    /** The version bumps for the bins of an update. `order` is the order in which they are
        ranged over. */
    method BumpBins(token: string, order: seq<string>)
      modifies this`chartVersions
      ensures chartVersions == Bumped(old(chartVersions), BinIds(token, order))
    {
      ghost var ids := BinIds(token, order);
      for i := 0 to |order|
        invariant chartVersions == Bumped(old(chartVersions), ids[..i])
      {
        BumpedSnoc(old(chartVersions), ids[..i], ids[i]);
        assert ids[..i + 1] == ids[..i] + [ids[i]];
        IncrementChart(CacheID(token, order[i]));
      }
      assert ids[..|order|] == ids;
    }

    /** The version bumps for the depth charts, after those of `ids`. */
    method BumpDepth(token: string, ghost versions: map<string, int>, ghost ids: seq<string>)
      requires chartVersions == Bumped(versions, ids)
      modifies this`chartVersions
      ensures chartVersions == Bumped(versions, ids + DepthIds(token))
    {
      ghost var d := DepthIds(token);
      BumpedSnoc(versions, ids, d[0]);
      BumpedSnoc(versions, ids + [d[0]], d[1]);
      BumpedSnoc(versions, ids + [d[0]] + [d[1]], d[2]);
      assert ids + d == ids + [d[0]] + [d[1]] + [d[2]];
      IncrementChart(CacheID(token, ORDERBOOK_KEY));
      IncrementChart(CacheID(AGGREGATED, ORDERBOOK_KEY));
      IncrementChart(CacheID(BTC_AGGREGATED, ORDERBOOK_KEY));
    }

    /** The version bumps of updateExchange, one for each updated chart. */
    method BumpAll(u: Update, order: seq<string>)
      modifies this`chartVersions
      ensures chartVersions == Bumped(old(chartVersions), BumpIds(u, order))
    {
      ghost var ids := BinIds(u.token, order);
      BumpBins(u.token, order);
      if u.hasDepth {
        BumpDepth(u.token, old(chartVersions), ids);
      } else {
        assert ids + [] == ids;
      }
    }

    /** The cleanup of processState: the states of exchanges that have gone quiet are deleted.
        What was received from them stays received. */
    method DropExpired(expired: set<string>)
      requires Valid()
      modifies this`dcrStates
      ensures Valid() && dcrStates == old(dcrStates) - expired
    {
      dcrStates := dcrStates - expired;
      forall id | id in versionedCharts ensures ChartOk(id) {
        var token, bin :| old(IsFor(id, token, bin));
        assert IsFor(id, token, bin);
      }
      forall token | token in dcrStates ensures StateOk(token) {
        assert old(StateOk(token));
      }
    }

    /** Cached charts stay sound over an update: those it makes stale are out of date. */
    twostate lemma ChartsKept(u: Update)
      requires old(Valid()) && versionedCharts == old(versionedCharts) && latest == Received(old(latest), u)
      requires AllUp(old(chartVersions), chartVersions, u)
      ensures forall id :: id in versionedCharts ==> ChartOk(id)
    {
      forall id | id in versionedCharts ensures ChartOk(id) {
        assert old(ChartOk(id));
        var token, bin :| old(IsFor(id, token, bin));
        assert token == u.token && u.candlesticks.Some? && bin in u.candlesticks.value ==>
                 VersionOf(chartVersions, CacheID(u.token, bin)) > VersionOf(old(chartVersions), id);
        assert IsFor(id, token, bin);
      }
    }

    /** And so do the states: the new ones are the latest and have a version. */
    twostate lemma StatesKept(u: Update)
      requires old(Valid()) && latest == Received(old(latest), u) && AllUp(old(chartVersions), chartVersions, u)
      requires dcrStates == if u.isDcr then old(dcrStates)[u.token := u.candlesticks] else old(dcrStates)
      requires Clean(u.token)
      ensures forall token :: token in dcrStates ==> StateOk(token)
    {
      forall token | token in dcrStates ensures StateOk(token) {
        if token != u.token || !u.isDcr {
          assert old(StateOk(token));
        }
      }
    }

    /** The assignment of the new state. */
    method StoreState(u: Update)
      modifies this`dcrStates, this`latest
      ensures latest == Received(old(latest), u)
      ensures dcrStates == if u.isDcr then old(dcrStates)[u.token := u.candlesticks] else old(dcrStates)
    {
      if u.isDcr {
        dcrStates := dcrStates[u.token := u.candlesticks];
      }
      latest := Received(latest, u);
    }

    /** updateExchange up to the cleanup. */
    method StoreUpdate(u: Update, order: seq<string>)
      requires Valid() && Clean(u.token)
      requires Elems(order) == if u.candlesticks.Some? then u.candlesticks.value.Keys else {}
      requires forall i :: 0 <= i < |order| ==> Clean(order[i])
      modifies this
      ensures Valid() && versionedCharts == old(versionedCharts)
      ensures chartVersions == Bumped(old(chartVersions), BumpIds(u, order))
      ensures forall id :: VersionOf(chartVersions, id) >= VersionOf(old(chartVersions), id)
      ensures u.hasDepth ==> DepthUp(old(chartVersions), chartVersions, u.token)
      ensures latest == Received(old(latest), u)
      ensures dcrStates == if u.isDcr then old(dcrStates)[u.token := u.candlesticks] else old(dcrStates)
    {
      BumpsUp(chartVersions, u, order);
      BumpAll(u, order);
      StoreState(u);
      ChartsKept(u);
      StatesKept(u);
    }

    /** updateExchange: one critical section. After a DCR update the expired DCR states go. */
    method UpdateExchange(u: Update, order: seq<string>, expired: set<string>)
      requires Valid() && Clean(u.token)
      requires Elems(order) == if u.candlesticks.Some? then u.candlesticks.value.Keys else {}
      requires forall i :: 0 <= i < |order| ==> Clean(order[i])
      modifies this
      ensures Valid() && versionedCharts == old(versionedCharts)
      ensures chartVersions == Bumped(old(chartVersions), BumpIds(u, order))
      ensures forall id :: VersionOf(chartVersions, id) >= VersionOf(old(chartVersions), id)
      ensures u.hasDepth ==> DepthUp(old(chartVersions), chartVersions, u.token)
      ensures latest == Received(old(latest), u)
      ensures dcrStates == if u.isDcr then old(dcrStates)[u.token := u.candlesticks] - expired else old(dcrStates)
    {
      StoreUpdate(u, order);
      if u.isDcr {
        DropExpired(expired);
      }
    }

    /** fetchFromCache: a hit returns the most recently received sticks of that token and bin. */
    method FetchFromCache(token: string, bin: string) returns (data: Option<Sticks>, bestVersion: int)
      requires Valid()
      ensures bestVersion == VersionOf(chartVersions, CacheID(token, bin))
      ensures data.Some? ==> (token, bin) in latest && data.value == latest[(token, bin)]
      ensures data.Some? <==> CacheID(token, bin) in versionedCharts && versionedCharts[CacheID(token, bin)].dataID == bestVersion
    {
      var id := CacheID(token, bin);
      bestVersion := VersionOf(chartVersions, id);
      data := None;
      if id in versionedCharts && versionedCharts[id].dataID == bestVersion {
        assert ChartOk(id);
        ghost var t, b :| IsFor(id, t, b);
        CacheIDInjective(t, b, token, bin);
        data := Some(versionedCharts[id].chart);
      }
    }

    /** The second critical section of QuickSticks: the current sticks are encoded and cached
        under the version read earlier, which may be out of date by now. */
    method EncodeAndStore(token: string, bin: string, bestVersion: int, encodeOk: bool) returns (data: Option<Sticks>)
      requires Valid() && bestVersion <= VersionOf(chartVersions, CacheID(token, bin))
      modifies this`versionedCharts
      ensures Valid()
      ensures data.Some? ==> (token, bin) in latest && data.value == latest[(token, bin)]
      ensures data.Some? <==> encodeOk && HasSticks(dcrStates, token, bin)
      ensures data.Some? ==> |data.value| > 0 && token in dcrStates && dcrStates[token] != None
      ensures versionedCharts == if data.Some? then old(versionedCharts)[CacheID(token, bin) := VersionedChart(bestVersion, data.value)]
                                 else old(versionedCharts)
    {
      data := None;
      if token !in dcrStates || dcrStates[token].None? || bin !in dcrStates[token].value {
        return;
      }
      var sticks := dcrStates[token].value[bin];
      if |sticks| == 0 || !encodeOk {
        return;
      }
      assert StateOk(token);
      var id := CacheID(token, bin);
      versionedCharts := versionedCharts[id := VersionedChart(bestVersion, sticks)];
      data := Some(sticks);
      assert IsFor(id, token, bin);
      forall other | other in versionedCharts && other != id ensures ChartOk(other) {
        assert old(ChartOk(other));
        var t, b :| old(IsFor(other, t, b));
        assert IsFor(other, t, b);
      }
      forall t | t in dcrStates ensures StateOk(t) {
        assert old(StateOk(t));
      }
    }
  }

  predicate HasSticks(states: map<string, Option<map<string, Sticks>>>, token: string, bin: string) {
    token in states && states[token].Some? && bin in states[token].value && |states[token].value[bin]| > 0
  }

  /** What has been received most recently, after one more update. */
  ghost function Received(latest: map<(string, string), Sticks>, u: Update): map<(string, string), Sticks> {
    if !u.isDcr || u.candlesticks.None? then latest
    else latest + map bin | bin in u.candlesticks.value :: (u.token, bin) := u.candlesticks.value[bin]
  }

  // ---- Every interleaving of requests and updates ----

  datatype Step =
    | UpdateStep(u: Update, order: seq<string>, expired: set<string>)
    | IndexStep(expired: set<string>)
    | FetchStep(thread: nat, token: string, bin: string)
    | EncodeStep(thread: nat, encodeOk: bool)

  /** A QuickSticks call between its two critical sections. */
  datatype Pending = Pending(token: string, bin: string, version: int)

  predicate StepOk(s: Step) {
    s.UpdateStep? ==>
      && Clean(s.u.token)
      && Elems(s.order) == (if s.u.candlesticks.Some? then s.u.candlesticks.value.Keys else {})
      && forall i :: 0 <= i < |s.order| ==> Clean(s.order[i])
  }

  ghost predicate PendingOk(bot: ExchangeBot, pending: map<nat, Pending>)
    reads bot
  {
    forall t :: t in pending ==> pending[t].version <= VersionOf(bot.chartVersions, CacheID(pending[t].token, pending[t].bin))
  }

  /** The candlesticks most recently received after the first `n` steps. */
  ghost function LatestAfter(latest: map<(string, string), Sticks>, steps: seq<Step>, n: nat): map<(string, string), Sticks>
    requires n <= |steps|
  {
    if n == 0 then latest else
      var before := LatestAfter(latest, steps, n - 1);
      if steps[n - 1].UpdateStep? then Received(before, steps[n - 1].u) else before
  }

  /** What the thread last asked for within the first `n` steps. */
  function LastAsk(steps: seq<Step>, n: nat, thread: nat): (string, string)
    requires n <= |steps|
  {
    if n == 0 then ("", "")
    else if steps[n - 1].FetchStep? && steps[n - 1].thread == thread then (steps[n - 1].token, steps[n - 1].bin)
    else LastAsk(steps, n - 1, thread)
  }

  /** Token and bin of the request that step `i` answers. */
  function KeyOf(steps: seq<Step>, i: nat): (string, string)
    requires i < |steps|
  {
    match steps[i]
    case UpdateStep(_, _, _) => ("", "")
    case IndexStep(_) => ("", "")
    case FetchStep(_, token, bin) => (token, bin)
    case EncodeStep(t, _) => LastAsk(steps, i, t)
  }

  /** The answer of step `i`, if there is one, is the newest candlesticks of its request. */
  ghost predicate Fresh(latest: map<(string, string), Sticks>, steps: seq<Step>, i: nat, answer: Option<Sticks>)
    requires i < |steps|
  {
    var now := LatestAfter(latest, steps, i + 1);
    answer.Some? ==> KeyOf(steps, i) in now && answer.value == now[KeyOf(steps, i)]
  }

  ghost predicate PendingAsked(steps: seq<Step>, n: nat, pending: map<nat, Pending>)
    requires n <= |steps|
  {
    forall t :: t in pending ==> LastAsk(steps, n, t) == (pending[t].token, pending[t].bin)
  }

  method Perform(bot: ExchangeBot, steps: seq<Step>, i: nat, pending: map<nat, Pending>, ghost start: map<(string, string), Sticks>)
    returns (answer: Option<Sticks>, pending': map<nat, Pending>)
    requires bot.Valid() && i < |steps| && StepOk(steps[i]) && bot.latest == LatestAfter(start, steps, i)
    requires PendingOk(bot, pending) && PendingAsked(steps, i, pending)
    modifies bot
    ensures bot.Valid() && bot.latest == LatestAfter(start, steps, i + 1)
    ensures PendingOk(bot, pending') && PendingAsked(steps, i + 1, pending')
    ensures Fresh(start, steps, i, answer)
    ensures steps[i].FetchStep? ==>
              var id := CacheID(steps[i].token, steps[i].bin);
              answer.Some? <==> id in old(bot.versionedCharts) && old(bot.versionedCharts)[id].dataID == VersionOf(old(bot.chartVersions), id)
    ensures steps[i].EncodeStep? ==>
              (answer.Some? <==> steps[i].thread in pending && steps[i].encodeOk
                                 && HasSticks(old(bot.dcrStates), pending[steps[i].thread].token, pending[steps[i].thread].bin))
    ensures steps[i].FetchStep? && answer.None? ==>
              steps[i].thread in pending' && pending'[steps[i].thread] ==
                Pending(steps[i].token, steps[i].bin, VersionOf(old(bot.chartVersions), CacheID(steps[i].token, steps[i].bin)))
  {
    answer, pending' := None, pending;
    match steps[i] {
      case UpdateStep(u, order, expired) =>
        bot.UpdateExchange(u, order, expired);
      case IndexStep(expired) =>
        bot.DropExpired(expired);
      case FetchStep(t, token, bin) =>
        var version;
        answer, version := bot.FetchFromCache(token, bin);
        pending' := if answer.None? then pending[t := Pending(token, bin, version)] else pending - {t};
      case EncodeStep(t, encodeOk) =>
        if t in pending {
          var p := pending[t];
          answer := bot.EncodeAndStore(p.token, p.bin, p.version, encodeOk);
          pending' := pending - {t};
        }
    }
  }

  /** A chart that was encoded is a hit until the next increment of its version: a miss, an
      encoding with nothing in between, and then a request that hits with the same sticks. */
  method MissThenHit(bot: ExchangeBot, token: string, bin: string) returns (first: Option<Sticks>, second: Option<Sticks>)
    requires bot.Valid() && HasSticks(bot.dcrStates, token, bin)
    modifies bot
    ensures bot.Valid() && bot.dcrStates == old(bot.dcrStates) && HasSticks(bot.dcrStates, token, bin)
    ensures first == second == Some(bot.dcrStates[token].value[bin])
  {
    assert bot.StateOk(token);
    var version;
    first, version := bot.FetchFromCache(token, bin);
    if first.None? {
      first := bot.EncodeAndStore(token, bin, version, true);
    }
    second, version := bot.FetchFromCache(token, bin);
  }

  /** Any interleaving of the critical sections of any number of QuickSticks calls with
      updates: every answer, from the cache or freshly encoded, is the candlesticks most
      recently received for its token and bin at the moment it is taken. */
  method Run(bot: ExchangeBot, steps: seq<Step>) returns (answers: seq<Option<Sticks>>)
    requires bot.Valid() && forall i :: 0 <= i < |steps| ==> StepOk(steps[i])
    modifies bot
    ensures bot.Valid() && |answers| == |steps|
    ensures forall i :: 0 <= i < |steps| ==> Fresh(old(bot.latest), steps, i, answers[i])
  {
    answers := [];
    var pending: map<nat, Pending> := map[];
    for i := 0 to |steps|
      invariant bot.Valid() && bot.latest == LatestAfter(old(bot.latest), steps, i)
      invariant PendingOk(bot, pending) && PendingAsked(steps, i, pending) && |answers| == i
      invariant forall j :: 0 <= j < i ==> Fresh(old(bot.latest), steps, j, answers[j])
    {
      var answer;
      answer, pending := Perform(bot, steps, i, pending, old(bot.latest));
      answers := answers + [answer];
    }
  }
}
