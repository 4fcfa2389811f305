/** The proxy pool manager (`ProxyManager`): an ordered list of proxies, a
    health score per proxy url, and the index of the current proxy. Every
    operation is a pure transition from one manager state to the next; the
    events the manager emits are recorded in order in the state, and whether
    proxying is enabled by configuration is a parameter. */
module ProxyPool {
  import opened Js

  /** A proxy: its url and the optional extra request headers. */
  datatype ProxyConfig = ProxyConfig(url: string, headers: Option<map<string, string>>)

  /** The notifications the manager emits, with their payloads. */
  datatype Event =
    | ProxyRotated(current: Option<ProxyConfig>)
    | ProxyAdded(added: ProxyConfig)
    | ProxyRemoved(removed: ProxyConfig)
    | ProxiesCleared

  datatype Manager = Manager(
    proxyList: seq<ProxyConfig>,
    proxyScores: map<string, real>,
    currentIndex: nat,
    events: seq<Event>)

  /** The lowest score `updateProxyScore` can produce. */
  const MinScore: real := 0.1
  /** The highest score `updateProxyScore` can produce. */
  const MaxScore: real := 10.0
  /** The score a proxy starts with. */
  const InitialScore: real := 1.0

  /** The current index designates an element of a non-empty pool and is 0
      for an empty one. */
  predicate IndexValid(m: Manager) {
    if |m.proxyList| == 0 then m.currentIndex == 0 else m.currentIndex < |m.proxyList|
  }

  /** Every stored score lies in [MinScore, MaxScore]. */
  predicate ScoresInRange(scores: map<string, real>) {
    forall u :: u in scores ==> MinScore <= scores[u] <= MaxScore
  }

  predicate Valid(m: Manager) {
    IndexValid(m) && ScoresInRange(m.proxyScores)
  }

  /** A manager with no proxies. */
  function Empty(): (m: Manager)
    ensures Valid(m) && |m.proxyList| == 0 && m.events == []
    ensures m.proxyScores == map[] && m.currentIndex == 0
  {
    Manager([], map[], 0, [])
  }

  /** The manager built from the configured proxies: the list in
      configuration order, every url scored InitialScore, index 0. */
  function Initial(proxies: seq<ProxyConfig>): (m: Manager)
    ensures Valid(m)
    ensures m.proxyList == proxies && m.currentIndex == 0 && m.events == []
    ensures forall i :: 0 <= i < |proxies| ==> proxies[i].url in m.proxyScores
    ensures forall u :: u in m.proxyScores ==>
      m.proxyScores[u] == InitialScore && exists i :: 0 <= i < |proxies| && proxies[i].url == u
  {
    var scores := map p | p in proxies :: p.url := InitialScore;
    assert forall i :: 0 <= i < |proxies| ==> proxies[i] in proxies && proxies[i].url in scores;
    Manager(proxies, scores, 0, [])
  }

  /** `scores.get(url) || fallback`: a missing score, and a stored zero, read
      as `fallback`. */
  function ScoreOr(scores: map<string, real>, url: string, fallback: real): real {
    if url in scores && scores[url] != 0.0 then scores[url] else fallback
  }

  /** The scores rotation compares, position by position in the pool. */
  function RankScores(m: Manager): (ranks: seq<real>)
    ensures |ranks| == |m.proxyList|
    ensures forall i :: 0 <= i < |ranks| ==> ranks[i] == ScoreOr(m.proxyScores, m.proxyList[i].url, 0.0)
  {
    seq(|m.proxyList|, i requires 0 <= i < |m.proxyList| => ScoreOr(m.proxyScores, m.proxyList[i].url, 0.0))
  }

  /** `getCurrentProxy()`: nothing when the pool is empty or proxying is
      disabled, otherwise the proxy at the current index. */
  function CurrentProxy(m: Manager, enabled: bool): (r: Option<ProxyConfig>)
    ensures r.None? <==> |m.proxyList| == 0 || !enabled || m.currentIndex >= |m.proxyList|
    ensures r.Some? ==> r.value in m.proxyList
    ensures IndexValid(m) && |m.proxyList| > 0 && enabled ==> r == Some(m.proxyList[m.currentIndex])
  {
    if |m.proxyList| == 0 || !enabled then None
    else if m.currentIndex < |m.proxyList| then Some(m.proxyList[m.currentIndex])
    else None  // reading past the end of the list yields `undefined`
  }

  /** Position `i` holds a maximal score and every earlier position a
      strictly smaller one: the first maximum. */
  predicate IsFirstMax(ranks: seq<real>, i: int) {
    && 0 <= i < |ranks|
    && (forall j :: 0 <= j < |ranks| ==> ranks[j] <= ranks[i])
    && (forall j :: 0 <= j < i ==> ranks[j] < ranks[i])
  }

  /** The `forEach` scan of `rotateProxy` from position `k` on, with the best
      score and index found so far; a later position wins only with a
      strictly greater score. */
  function ScanBest(ranks: seq<real>, k: nat, bestScore: real, bestIndex: nat): (r: nat)
    requires k <= |ranks|
    decreases |ranks| - k
    ensures r == bestIndex || k <= r < |ranks|
  {
    if k == |ranks| then bestIndex
    else if ranks[k] > bestScore then ScanBest(ranks, k + 1, ranks[k], k)
    else ScanBest(ranks, k + 1, bestScore, bestIndex)
  }

  /** Started with best score -1 and index 0, the scan ends on the first
      maximum of scores that all exceed -1. */
  lemma {:induction false} ScanBestFindsFirstMax(ranks: seq<real>, k: nat, bestScore: real, bestIndex: nat)
    requires k <= |ranks| && 0 < |ranks|
    requires forall j :: 0 <= j < |ranks| ==> ranks[j] > -1.0
    requires k == 0 ==> bestScore == -1.0 && bestIndex == 0
    requires k > 0 ==> bestIndex < k && bestScore == ranks[bestIndex]
    requires k > 0 ==> forall j :: 0 <= j < k ==> ranks[j] <= bestScore
    requires k > 0 ==> forall j :: 0 <= j < bestIndex ==> ranks[j] < bestScore
    decreases |ranks| - k
    ensures IsFirstMax(ranks, ScanBest(ranks, k, bestScore, bestIndex))
  {
    if k < |ranks| {
      if ranks[k] > bestScore {
        ScanBestFindsFirstMax(ranks, k + 1, ranks[k], k);
      } else {
        ScanBestFindsFirstMax(ranks, k + 1, bestScore, bestIndex);
      }
    }
  }

  /** `rotateProxy()`: on an empty pool nothing changes and nothing is
      emitted; otherwise the index moves to the first proxy with the highest
      score and the new current proxy (nothing when disabled) is emitted and
      returned. */
  function Rotate(m: Manager, enabled: bool): (r: (Manager, Option<ProxyConfig>))
    ensures |m.proxyList| == 0 ==> r == (m, None)
    ensures r.0.proxyList == m.proxyList && r.0.proxyScores == m.proxyScores
    ensures IndexValid(m) ==> IndexValid(r.0)
    ensures |m.proxyList| > 0 ==>
      && r.0.currentIndex < |m.proxyList|
      && r.1 == CurrentProxy(r.0, enabled)
      && r.0.events == m.events + [ProxyRotated(r.1)]
    ensures |m.proxyList| > 0 && ScoresInRange(m.proxyScores) ==> IsFirstMax(RankScores(m), r.0.currentIndex)
  {
    if |m.proxyList| == 0 then (m, None)
    else
      var ranks := RankScores(m);
      var best := ScanBest(ranks, 0, -1.0, 0);
      RotationPicksFirstMax(m);
      var moved := m.(currentIndex := best);
      var proxy := CurrentProxy(moved, enabled);
      (moved.(events := m.events + [ProxyRotated(proxy)]), proxy)
  }

  /** With stored scores in range every compared score is at least 0, above
      the scan's starting score of -1, so the scan lands on the first maximum. */
  lemma {:induction false} RotationPicksFirstMax(m: Manager)
    ensures |m.proxyList| > 0 && ScoresInRange(m.proxyScores) ==>
      IsFirstMax(RankScores(m), ScanBest(RankScores(m), 0, -1.0, 0))
  {
    if |m.proxyList| > 0 && ScoresInRange(m.proxyScores) {
      var ranks := RankScores(m);
      assert forall j :: 0 <= j < |ranks| ==> ranks[j] > -1.0;
      ScanBestFindsFirstMax(ranks, 0, -1.0, 0);
    }
  }

  /** `updateProxyScore(url, success)`: starting from the stored score (1 when
      missing), success multiplies it by 1.1 capped at MaxScore and failure by
      0.8 floored at MinScore; a url with no score yet gains one. */
  function UpdateScore(m: Manager, url: string, success: bool): (r: Manager)
    ensures r.proxyList == m.proxyList && r.currentIndex == m.currentIndex && r.events == m.events
    ensures r.proxyScores.Keys == m.proxyScores.Keys + {url}
    ensures forall u :: u in m.proxyScores && u != url ==> r.proxyScores[u] == m.proxyScores[u]
    ensures var before := ScoreOr(m.proxyScores, url, InitialScore);
      var after := r.proxyScores[url];
      if success then
        after <= MaxScore && after <= before * 1.1 && (after == MaxScore || after == before * 1.1)
      else
        after >= MinScore && after >= before * 0.8 && (after == MinScore || after == before * 0.8)
    ensures ScoresInRange(m.proxyScores) ==> ScoresInRange(r.proxyScores)
    ensures IndexValid(m) ==> IndexValid(r)
    ensures ScoresInRange(m.proxyScores) ==>
      var before := ScoreOr(m.proxyScores, url, InitialScore);
      && (success && before < MaxScore ==> r.proxyScores[url] > before)
      && (!success && before > MinScore ==> r.proxyScores[url] < before)
  {
    var current := ScoreOr(m.proxyScores, url, InitialScore);
    var next := if success then MinReal(current * 1.1, MaxScore) else MaxReal(current * 0.8, MinScore);
    m.(proxyScores := m.proxyScores[url := next])
  }

  /** `addProxy(proxy)`: the proxy goes at the end of the pool, its url is
      scored InitialScore whatever it had before, the index stays, and
      `proxyAdded` is emitted. */
  function Add(m: Manager, proxy: ProxyConfig): (r: Manager)
    ensures |r.proxyList| == |m.proxyList| + 1
    ensures r.proxyList[..|m.proxyList|] == m.proxyList && r.proxyList[|m.proxyList|] == proxy
    ensures r.proxyScores.Keys == m.proxyScores.Keys + {proxy.url}
    ensures r.proxyScores[proxy.url] == InitialScore
    ensures forall u :: u in m.proxyScores && u != proxy.url ==> r.proxyScores[u] == m.proxyScores[u]
    ensures r.currentIndex == m.currentIndex
    ensures r.events == m.events + [ProxyAdded(proxy)]
    ensures IndexValid(m) ==> IndexValid(r)
    ensures ScoresInRange(m.proxyScores) ==> ScoresInRange(r.proxyScores)
  {
    Manager(m.proxyList + [proxy], m.proxyScores[proxy.url := InitialScore], m.currentIndex,
            m.events + [ProxyAdded(proxy)])
  }

  /** `findIndex(p => p.url === url)`: the first position holding `url`, or -1. */
  function FindIndex(list: seq<ProxyConfig>, url: string): (r: int)
    ensures r == -1 <==> forall j :: 0 <= j < |list| ==> list[j].url != url
    ensures r != -1 ==> 0 <= r < |list| && list[r].url == url
    ensures r != -1 ==> forall j :: 0 <= j < r ==> list[j].url != url
  {
    if |list| == 0 then -1
    else if list[0].url == url then 0
    else
      var k := FindIndex(list[1..], url);
      if k == -1 then -1 else k + 1
  }

  /** `removeProxy(url)`: when no proxy has `url` nothing changes and nothing
      is emitted. Otherwise only the first proxy with `url` leaves the pool
      (the others keep their order), the url's score is deleted,
      `proxyRemoved` is emitted with that proxy, and the index is reset to 0
      exactly when it no longer designates a position of the shorter pool. */
  function Remove(m: Manager, url: string): (r: Manager)
    ensures (forall j :: 0 <= j < |m.proxyList| ==> m.proxyList[j].url != url) ==> r == m
    ensures var i := FindIndex(m.proxyList, url);
      i != -1 ==>
        && |r.proxyList| == |m.proxyList| - 1
        && (forall j :: 0 <= j < i ==> r.proxyList[j] == m.proxyList[j])
        && (forall j :: i <= j < |r.proxyList| ==> r.proxyList[j] == m.proxyList[j + 1])
        && multiset(r.proxyList) + multiset{m.proxyList[i]} == multiset(m.proxyList)
        && r.proxyScores.Keys == m.proxyScores.Keys - {url}
        && (forall u :: u in r.proxyScores ==> r.proxyScores[u] == m.proxyScores[u])
        && (m.currentIndex < |r.proxyList| ==> r.currentIndex == m.currentIndex)
        && (m.currentIndex >= |r.proxyList| ==> r.currentIndex == 0)
        && r.events == m.events + [ProxyRemoved(m.proxyList[i])]
    ensures IndexValid(m) ==> IndexValid(r)
    ensures ScoresInRange(m.proxyScores) ==> ScoresInRange(r.proxyScores)
  {
    var i := FindIndex(m.proxyList, url);
    if i == -1 then m
    else
      var list := Splice(m.proxyList, i);
      Manager(list, m.proxyScores - {url}, if m.currentIndex >= |list| then 0 else m.currentIndex,
              m.events + [ProxyRemoved(m.proxyList[i])])
  }

  /** `splice(i, 1)`: the list without its element at `i`, the others in
      their order. */
  function Splice(list: seq<ProxyConfig>, i: nat): (r: seq<ProxyConfig>)
    requires i < |list|
    ensures |r| == |list| - 1
    ensures forall j :: 0 <= j < i ==> r[j] == list[j]
    ensures forall j :: i <= j < |r| ==> r[j] == list[j + 1]
    ensures multiset(r) + multiset{list[i]} == multiset(list)
  {
    assert list == list[..i] + [list[i]] + list[i + 1..];
    list[..i] + list[i + 1..]
  }

  /** `clearProxies()`: no proxies, no scores, index 0, and `proxiesCleared`
      is emitted. */
  function Clear(m: Manager): (r: Manager)
    ensures Valid(r)
    ensures r.proxyList == [] && r.proxyScores == map[] && r.currentIndex == 0
    ensures r.events == m.events + [ProxiesCleared]
  {
    Manager([], map[], 0, m.events + [ProxiesCleared])
  }

  /** `getProxyCount()`. */
  function ProxyCount(m: Manager): nat {
    |m.proxyList|
  }

  /** The operations that change a manager. */
  datatype Op =
    | RotateOp
    | UpdateOp(url: string, success: bool)
    | AddOp(proxy: ProxyConfig)
    | RemoveOp(url: string)
    | ClearOp

  function Apply(m: Manager, op: Op, enabled: bool): Manager {
    match op
    case RotateOp => Rotate(m, enabled).0
    case UpdateOp(url, success) => UpdateScore(m, url, success)
    case AddOp(proxy) => Add(m, proxy)
    case RemoveOp(url) => Remove(m, url)
    case ClearOp => Clear(m)
  }

  function Run(m: Manager, ops: seq<Op>, enabled: bool): Manager
    decreases |ops|
  {
    if |ops| == 0 then m else Run(Apply(m, ops[0], enabled), ops[1..], enabled)
  }

  /** Every sequence of operations keeps the index valid and every score in
      [MinScore, MaxScore]. */
  lemma {:induction false} RunPreservesValid(m: Manager, ops: seq<Op>, enabled: bool)
    requires Valid(m)
    ensures Valid(Run(m, ops, enabled))
    decreases |ops|
  {
    if |ops| > 0 {
      RunPreservesValid(Apply(m, ops[0], enabled), ops[1..], enabled);
    }
  }

  /** `getProxyCount()` grows by one on add, shrinks by one on removing a
      present url, drops to 0 on clear, and is otherwise unchanged. */
  lemma {:induction false} ProxyCountAfter(m: Manager, op: Op, enabled: bool)
    ensures ProxyCount(Apply(m, op, enabled)) ==
      match op
      case AddOp(_) => ProxyCount(m) + 1
      case RemoveOp(url) => if FindIndex(m.proxyList, url) == -1 then ProxyCount(m) else ProxyCount(m) - 1
      case ClearOp => 0
      case _ => ProxyCount(m)
  {
  }

  /** Once the only proxy with a url is removed, no proxy in the pool has that
      url, so the current proxy is never the removed one. */
  lemma {:induction false} RemovedUniqueUrlIsGone(m: Manager, url: string, enabled: bool)
    requires forall i, j :: 0 <= i < j < |m.proxyList| ==> m.proxyList[i].url == url ==> m.proxyList[j].url != url
    ensures forall j :: 0 <= j < |Remove(m, url).proxyList| ==> Remove(m, url).proxyList[j].url != url
    ensures CurrentProxy(Remove(m, url), enabled).Some? ==> CurrentProxy(Remove(m, url), enabled).value.url != url
  {
    var r := Remove(m, url);
    var i := FindIndex(m.proxyList, url);
    if i != -1 {
      forall j | 0 <= j < |r.proxyList|
        ensures r.proxyList[j].url != url
      {
        if j >= i {
          assert r.proxyList[j] == m.proxyList[j + 1];
        }
      }
    }
  }

  /** Removing a proxy before the current one keeps the index, so the
      current proxy becomes the one that followed it; only when the index
      falls off the end does it return to the first proxy. */
  lemma {:induction false} RemoveBeforeCurrentShifts(m: Manager, url: string, enabled: bool)
    requires IndexValid(m) && enabled
    requires FindIndex(m.proxyList, url) != -1 && FindIndex(m.proxyList, url) < m.currentIndex
    ensures m.currentIndex + 1 < |m.proxyList| ==>
              CurrentProxy(Remove(m, url), enabled) == Some(m.proxyList[m.currentIndex + 1])
    ensures m.currentIndex + 1 == |m.proxyList| ==>
              CurrentProxy(Remove(m, url), enabled) == Some(m.proxyList[if FindIndex(m.proxyList, url) == 0 then 1 else 0])
  {
  }

  /** Adding two proxies with the same url and then removing that url keeps
      the later proxy in the pool but deletes the url's score, so rotation
      reads its score as 0. */
  lemma {:induction false} DuplicateUrlLosesScore(m: Manager, p: ProxyConfig, q: ProxyConfig)
    requires p.url == q.url
    ensures var r := Remove(Add(Add(m, p), q), p.url);
      && |r.proxyList| == |m.proxyList| + 1
      && r.proxyList[|m.proxyList|] == q
      && p.url !in r.proxyScores
      && RankScores(r)[|m.proxyList|] == 0.0
  {
    var twice := Add(Add(m, p), q);
    assert twice.proxyList[|m.proxyList|] == p;
    var i := FindIndex(twice.proxyList, p.url);
    assert i != -1 && i <= |m.proxyList|;
    assert twice.proxyList[|m.proxyList| + 1] == q;
  }

  /** Two proxies starting at the same score: after one penalty for the first
      (score 0.8) and one reward for the second (score 1.1), rotation selects
      the second. */
  lemma {:induction false} RotationFollowsScores(a: ProxyConfig, b: ProxyConfig)
    requires a.url != b.url
    ensures var m := UpdateScore(UpdateScore(Initial([a, b]), a.url, false), b.url, true);
      && m.proxyScores[a.url] == 0.8
      && m.proxyScores[b.url] == 1.1
      && Rotate(m, true).0.currentIndex == 1
      && Rotate(m, true).1 == Some(b)
  {
    var m0 := Initial([a, b]);
    assert m0.proxyScores[a.url] == 1.0 && m0.proxyScores[b.url] == 1.0;
    var m := UpdateScore(UpdateScore(m0, a.url, false), b.url, true);
    var ranks := RankScores(m);
    assert ranks == [0.8, 1.1];
    RotationPicksFirstMax(m);
  }

  /** Equal scores: rotation keeps the earliest proxy. */
  lemma {:induction false} RotationTieKeepsFirst(a: ProxyConfig, b: ProxyConfig)
    ensures Rotate(Initial([a, b]), true).0.currentIndex == 0
  {
    var m := Initial([a, b]);
    assert m.proxyScores[a.url] == 1.0 && m.proxyScores[b.url] == 1.0;
    assert RankScores(m) == [1.0, 1.0];
    RotationPicksFirstMax(m);
  }
}
