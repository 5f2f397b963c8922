/**
  The batch loop `getIDs` (spotify-preview-url-scraper/server.js): every edge is either
  answered from the records of a previous run, or resolved with a fixed escalation of at
  most three `getSpotifyData` calls; the records come out in edge order.
 */
module Scrape {
  import opened Wrappers
  import opened Builtins
  import opened Matching
  import opened Resolver

  /** The cache key test of `prevData.find(...)`: same source and same target. */
  predicate SameEdge(x: Theme, edge: Edge) {
    x.source == edge.source && x.target == edge.target
  }

  /** The cache lookup: the first record of the previous run with the edge's source and target. */
  function Lookup(prev: seq<Theme>, edge: Edge): (r: Option<Theme>)
    ensures r.Some? ==> SameEdge(r.value, edge) && r.value in prev
    ensures r.None? <==> forall i :: 0 <= i < |prev| ==> !SameEdge(prev[i], edge)
  {
    if prev == [] then None
    else if SameEdge(prev[0], edge) then Some(prev[0])
    else Lookup(prev[1..], edge)
  }

  /** The record found is the first one with the edge's source and target. */
  lemma {:induction false} LookupFindsFirst(prev: seq<Theme>, edge: Edge, k: nat)
    requires k < |prev| && SameEdge(prev[k], edge)
    requires forall j :: 0 <= j < k ==> !SameEdge(prev[j], edge)
    ensures Lookup(prev, edge) == Some(prev[k])
  {
    if k > 0 {
      LookupFindsFirst(prev[1..], edge, k - 1);
    }
  }

  /**
    The error tag of resolver call `n` for `edge`, made with the given `hideArtist` flag:
    it depends on the search answer alone, so the retry policy never looks at a record.
   */
  function CallError(edge: Edge, api: Api, n: nat, hideArtist: bool): ErrorTag {
    Status(api.search(n, Query(edge, hideArtist)))
  }

  /**
    The error tags of the calls `n`, `n + 1`, ... made with the flags `flags`: tag `k` is the
    `error` column of the record that call `n + k` returns, so the policy reads exactly what
    the ladder tests.
   */
  function Errors(edge: Edge, api: Api, n: nat, flags: seq<bool>): (r: seq<ErrorTag>)
    ensures |r| == |flags|
    ensures forall k :: 0 <= k < |flags| ==> r[k] == GetSpotifyData(edge, flags[k], api, n + k).error
  {
    seq(|flags|, k requires 0 <= k < |flags| => CallError(edge, api, n + k, flags[k]))
  }

  /**
    The retry policy as a state machine: given the error tags of the calls made so far,
    the `hideArtist` flag of the next call, or `None` when the last record is final.
    Start without hiding the artist; after `not found` hide it; after `request error` try
    again as before, and after `request error` then `not found` hide it.
   */
  function NextCall(errors: seq<ErrorTag>): (r: Option<bool>)
    ensures r.Some? ==> |errors| <= 2
    ensures |errors| == 0 ==> r == Some(false)
    ensures r == Some(true) ==> errors[|errors| - 1] == NotFound
    ensures 0 < |errors| && errors[|errors| - 1] == NoError ==> r.None?
  {
    if |errors| == 0 then Some(false)
    else if |errors| == 1 then
      match errors[0]
      case NotFound => Some(true)
      case RequestError => Some(false)
      case NoError => None
    else if |errors| == 2 && errors[0] == RequestError && errors[1] == NotFound then Some(true)
    else None
  }

  /**
    Runs the policy from the flags of the calls already `done` until it stops; call
    `n + k` is the `k`-th. The result extends `done` and is a state the policy stops in.
   */
  function Continue(edge: Edge, api: Api, n: nat, done: seq<bool>): (trace: seq<bool>)
    requires |done| <= 3
    ensures |done| <= |trace| <= 3
    ensures trace[..|done|] == done
    decreases 3 - |done|
  {
    match NextCall(Errors(edge, api, n, done))
    case None => done
    case Some(h) =>
      var trace := Continue(edge, api, n, done + [h]);
      assert trace[..|done|] == trace[..|done| + 1][..|done|];
      trace
  }

  /** The `hideArtist` flags of the calls one uncached edge receives, the first numbered `n`. */
  function Escalate(edge: Edge, api: Api, n: nat): (trace: seq<bool>)
    ensures 1 <= |trace| <= 3
    ensures !trace[0]
  {
    var trace := Continue(edge, api, n, []);
    assert NextCall(Errors(edge, api, n, [])) == Some(false);
    assert trace[..1] == Continue(edge, api, n, [false])[..1] == [false];
    trace
  }

  /** The record the escalation leaves in `theme`: that of its last call. */
  function Final(edge: Edge, api: Api, n: nat, trace: seq<bool>): (t: Theme)
    requires |trace| > 0
    ensures t.error == CallError(edge, api, n + |trace| - 1, trace[|trace| - 1])
    ensures t.source == edge.source && t.target == edge.target
  {
    GetSpotifyData(edge, trace[|trace| - 1], api, n + |trace| - 1)
  }

  /** The policy runs until it stops: after the last call it asks for no further one. */
  lemma {:induction false} ContinueStops(edge: Edge, api: Api, n: nat, done: seq<bool>)
    requires |done| <= 3
    ensures NextCall(Errors(edge, api, n, Continue(edge, api, n, done))).None?
    decreases 3 - |done|
  {
    match NextCall(Errors(edge, api, n, done))
    case None =>
    case Some(h) => ContinueStops(edge, api, n, done + [h]);
  }

  /** One step of the policy: the next call is made with the flag it names. */
  lemma ContinueStep(edge: Edge, api: Api, n: nat, done: seq<bool>, h: bool)
    requires |done| <= 2 && NextCall(Errors(edge, api, n, done)) == Some(h)
    ensures Continue(edge, api, n, done) == Continue(edge, api, n, done + [h])
  {
  }

  /** The policy stops: the calls made so far are all of them. */
  lemma ContinueStop(edge: Edge, api: Api, n: nat, done: seq<bool>)
    requires |done| <= 3 && NextCall(Errors(edge, api, n, done)).None?
    ensures Continue(edge, api, n, done) == done
  {
  }

  /** Every escalation starts with a call that does not hide the artist. */
  lemma FirstCall(edge: Edge, api: Api, n: nat)
    ensures Escalate(edge, api, n) == Continue(edge, api, n, [false])
  {
    ContinueStep(edge, api, n, [], false);
    assert [] + [false] == [false];
  }

  /** A record without error is final: one call in all. */
  lemma NoRetryOnSuccess(edge: Edge, api: Api, n: nat)
    requires CallError(edge, api, n, false) == NoError
    ensures Escalate(edge, api, n) == [false]
  {
    FirstCall(edge, api, n);
    assert Continue(edge, api, n, [false]) == [false] by {
      assert Errors(edge, api, n, [false])[0] == NoError;
      ContinueStop(edge, api, n, [false]);
    }
  }

  /** A `not found` first answer causes exactly one further call, hiding the artist, which is final. */
  lemma RetryAfterNotFound(edge: Edge, api: Api, n: nat)
    requires CallError(edge, api, n, false) == NotFound
    ensures Escalate(edge, api, n) == [false, true]
  {
    FirstCall(edge, api, n);
    assert Continue(edge, api, n, [false]) == Continue(edge, api, n, [false, true]) by {
      assert Errors(edge, api, n, [false])[0] == NotFound;
      ContinueStep(edge, api, n, [false], true);
      assert [false] + [true] == [false, true];
    }
    assert Continue(edge, api, n, [false, true]) == [false, true] by {
      assert Errors(edge, api, n, [false, true])[0] == NotFound;
      ContinueStop(edge, api, n, [false, true]);
    }
  }

  /** After a `request error` the same request is made again. */
  lemma RepeatAfterRequestError(edge: Edge, api: Api, n: nat)
    requires CallError(edge, api, n, false) == RequestError
    ensures Escalate(edge, api, n) == Continue(edge, api, n, [false, false])
  {
    FirstCall(edge, api, n);
    assert Continue(edge, api, n, [false]) == Continue(edge, api, n, [false, false]) by {
      assert Errors(edge, api, n, [false])[0] == RequestError;
      ContinueStep(edge, api, n, [false], false);
      assert [false] + [false] == [false, false];
    }
  }

  /**
    A `request error` first answer causes one more call as before; if that one finds
    nothing, a third call hides the artist; the last record is final.
   */
  lemma RetryAfterRequestError(edge: Edge, api: Api, n: nat)
    requires CallError(edge, api, n, false) == RequestError
    ensures CallError(edge, api, n + 1, false) == NotFound ==> Escalate(edge, api, n) == [false, false, true]
    ensures CallError(edge, api, n + 1, false) != NotFound ==> Escalate(edge, api, n) == [false, false]
  {
    RepeatAfterRequestError(edge, api, n);
    var e := Errors(edge, api, n, [false, false]);
    assert e[0] == RequestError && e[1] == CallError(edge, api, n + 1, false);
    if e[1] == NotFound {
      assert Continue(edge, api, n, [false, false]) == [false, false, true] by {
        ContinueStep(edge, api, n, [false, false], true);
        assert [false, false] + [true] == [false, false, true];
        ContinueStop(edge, api, n, [false, false, true]);
      }
    } else {
      ContinueStop(edge, api, n, [false, false]);
    }
  }

  /** The resolver calls the loop spends on `edge` when its next call is numbered `n`. */
  function Cost(edge: Edge, prev: seq<Theme>, api: Api, n: nat): (c: nat)
    ensures c <= 3
    ensures c == 0 <==> Lookup(prev, edge).Some?
  {
    match Lookup(prev, edge)
    case Some(_) => 0
    case None => |Escalate(edge, api, n)|
  }

  /** The record the loop pushes for `edge`: the cached one, else the escalation's last. */
  function Slot(edge: Edge, prev: seq<Theme>, api: Api, n: nat): (t: Theme)
    ensures SameEdge(t, edge)
  {
    match Lookup(prev, edge)
    case Some(t) => t
    case None => Final(edge, api, n, Escalate(edge, api, n))
  }

  /**
    The resolver calls the loop makes for `edges`, one edge after the other: the number
    of the first call made for an edge is the total for the edges before it.
   */
  function Total(edges: seq<Edge>, prev: seq<Theme>, api: Api): (n: nat)
    ensures n <= 3 * |edges|
  {
    if edges == [] then 0
    else
      var m := Total(edges[..|edges| - 1], prev, api);
      m + Cost(edges[|edges| - 1], prev, api, m)
  }

  /** One more edge: its calls come after those of the edges before it. */
  lemma TotalStep(edges: seq<Edge>, prev: seq<Theme>, api: Api, i: nat)
    requires i < |edges|
    ensures var n := Total(edges[..i], prev, api);
      Total(edges[..i + 1], prev, api) == n + Cost(edges[i], prev, api, n)
  {
    PrefixOfPrefix(edges, i, i + 1);
  }

  /** The records `getIDs` returns, slot by slot. */
  function Themes(edges: seq<Edge>, prev: seq<Theme>, api: Api): (r: seq<Theme>)
    ensures |r| == |edges|
    ensures forall i :: 0 <= i < |edges| ==> SameEdge(r[i], edges[i])
  {
    seq(|edges|, i requires 0 <= i < |edges| => Slot(edges[i], prev, api, Total(edges[..i], prev, api)))
  }

  /** The loop is online: the records for a prefix of the edges are a prefix of the records. */
  lemma PrefixOfThemes(edges: seq<Edge>, prev: seq<Theme>, api: Api, j: nat)
    requires j <= |edges|
    ensures Themes(edges[..j], prev, api) == Themes(edges, prev, api)[..j]
  {
    forall i | 0 <= i < j
      ensures Themes(edges[..j], prev, api)[i] == Themes(edges, prev, api)[i]
    {
      PrefixOfPrefix(edges, i, j);
    }
  }

  /** An edge found among the previous records gets the first such record, verbatim, and no call. */
  lemma CacheHitIsVerbatim(edges: seq<Edge>, prev: seq<Theme>, api: Api, i: nat, k: nat)
    requires i < |edges| && k < |prev| && SameEdge(prev[k], edges[i])
    requires forall j :: 0 <= j < k ==> !SameEdge(prev[j], edges[i])
    ensures Themes(edges, prev, api)[i] == prev[k]
    ensures Total(edges[..i + 1], prev, api) == Total(edges[..i], prev, api)
  {
    LookupFindsFirst(prev, edges[i], k);
    TotalStep(edges, prev, api, i);
  }

  /** When every edge is cached, the run makes no call at all. */
  lemma {:induction false} FullCacheMakesNoCalls(edges: seq<Edge>, prev: seq<Theme>, api: Api)
    requires forall j :: 0 <= j < |edges| ==> Lookup(prev, edges[j]).Some?
    ensures Total(edges, prev, api) == 0
  {
    if edges != [] {
      var init := edges[..|edges| - 1];
      assert forall j :: 0 <= j < |init| ==> init[j] == edges[j];
      FullCacheMakesNoCalls(init, prev, api);
      assert Lookup(prev, edges[|edges| - 1]).Some?;
    }
  }

  /**
    An uncached edge gets the last record of its escalation, whose calls are numbered
    right after all the calls made for the edges before it.
   */
  lemma CacheMissEscalates(edges: seq<Edge>, prev: seq<Theme>, api: Api, i: nat)
    requires i < |edges| && forall k :: 0 <= k < |prev| ==> !SameEdge(prev[k], edges[i])
    ensures var n := Total(edges[..i], prev, api);
      var trace := Escalate(edges[i], api, n);
      Themes(edges, prev, api)[i] == Final(edges[i], api, n, trace) &&
      Total(edges[..i + 1], prev, api) == n + |trace|
  {
    TotalStep(edges, prev, api, i);
  }

  /**
    The uncached branch of the loop body of `getIDs`: the if-ladder of `getSpotifyData`
    calls for `edge`, numbered from `n`; `m` is the number of the next call afterwards.
    It makes exactly the calls of the escalation policy and keeps the last record.
   */
  method Resolve(edge: Edge, api: Api, n: nat) returns (theme: Theme, m: nat)
    ensures m == n + |Escalate(edge, api, n)|
    ensures theme == Final(edge, api, n, Escalate(edge, api, n))
  {
    m := n;
    theme := GetSpotifyData(edge, false, api, m);
    m := m + 1;
    if theme.error == NotFound {
      RetryAfterNotFound(edge, api, n);
      theme := GetSpotifyData(edge, true, api, m);
      m := m + 1;
      assert theme == Final(edge, api, n, [false, true]);
    } else if theme.error == RequestError {
      RetryAfterRequestError(edge, api, n);
      theme := GetSpotifyData(edge, false, api, m);
      m := m + 1;
      if theme.error == NotFound {
        theme := GetSpotifyData(edge, true, api, m);
        m := m + 1;
        assert theme == Final(edge, api, n, [false, false, true]);
      } else {
        assert theme == Final(edge, api, n, [false, false]);
      }
    } else {
      NoRetryOnSuccess(edge, api, n);
      assert theme == Final(edge, api, n, [false]);
    }
  }

  /**
    `getIDs(edges, prevData, token)`: the records in edge order. `n` numbers the resolver
    calls; it ends as `calls`, the number of calls made in all.
   */
  method GetIDs(edges: seq<Edge>, prevData: seq<Theme>, api: Api) returns (themes: seq<Theme>, calls: nat)
    ensures themes == Themes(edges, prevData, api)
    ensures calls == Total(edges, prevData, api)
  {
    themes := [];
    var n := 0;
    ghost var all := Themes(edges, prevData, api);
    for i := 0 to |edges|
      invariant n == Total(edges[..i], prevData, api)
      invariant themes == all[..i]
    {
      var edge := edges[i];
      PrefixSnoc(all, i);
      TotalStep(edges, prevData, api, i);
      assert all[i] == Slot(edge, prevData, api, n);
      var alreadyExisting := Lookup(prevData, edge);
      if alreadyExisting.Some? {
        themes := themes + [alreadyExisting.value];
        continue;
      }
      var theme, next := Resolve(edge, api, n);
      assert next == n + Cost(edge, prevData, api, n);
      themes := themes + [theme];
      n := next;
    }
    assert all[..|edges|] == all;
    assert edges[..|edges|] == edges;
    calls := n;
  }

  /** Every record sits in its edge's slot: same source and target, in edge order. */
  lemma GetIDsKeepsEdgeOrder(edges: seq<Edge>, prevData: seq<Theme>, api: Api)
    ensures var themes := Themes(edges, prevData, api);
      |themes| == |edges| &&
      forall i :: 0 <= i < |edges| ==> themes[i].source == edges[i].source && themes[i].target == edges[i].target
  {
  }
}
