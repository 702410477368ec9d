/**
 * `GrabberEngine.process(url)`: resolve the URL, then hand it to the first
 * handler that supports its kind. A handler that fails ends the search with
 * an empty result for streams and pages, and lets the search go on for any
 * other kind; when no handler has given a result, a fresh direct-file
 * handler is used for kinds other than streams and pages.
 *
 * The handlers are inputs: `run(h, url)` is what handler `h` returns for
 * `url`, or `None` when it raises; `fallback(url)` is what the fresh
 * direct-file handler returns, or `None` when it raises, which `process`
 * does not catch.
 */
module GrabberDispatch {
  import opened Common
  import opened GrabberTypes
  import opened UrlResolution
  import opened GrabberHandlers

  /** `self.handlers`, in the order they are tried. */
  const Handlers: seq<Handler> := [DirectFileHandler, PageHandler, HlsHandler]

  /** `result.url_type = url_type`: a handler's result relabelled with the resolved kind. */
  function Relabel(r: GrabberResult, t: UrlType): GrabberResult {
    r.(urlType := t)
  }

  /** Stream hints and pages never fall back to another handler. */
  predicate NoFallback(t: UrlType) {
    t == StreamHint || t == HtmlPage
  }

  /**
   * The loop of `process` over the handlers `hs` still to try, for the
   * normalized URL `n` of kind `t`, followed by what comes after the loop.
   */
  function Dispatch(n: string, t: UrlType, run: (Handler, string) -> Option<GrabberResult>,
                    fallback: string -> Option<GrabberResult>, hs: seq<Handler>): Option<GrabberResult>
  {
    if hs == [] then
      if NoFallback(t) then Some(EmptyResult(n, t))
      else
        match fallback(n)
        case None => None
        case Some(r) => Some(Relabel(r, t))
    else if Supports(hs[0], t) then
      match run(hs[0], n)
      case Some(r) => Some(Relabel(r, t))
      case None =>
        if NoFallback(t) then Some(EmptyResult(n, t))
        else Dispatch(n, t, run, fallback, hs[1..])
    else Dispatch(n, t, run, fallback, hs[1..])
  }

  /** What `process(url)` returns, with the resolver's probes `head` and `get`; `None` when it raises. */
  function Processed(url: string, head: Probe, get: Probe, run: (Handler, string) -> Option<GrabberResult>,
                     fallback: string -> Option<GrabberResult>): Option<GrabberResult>
  {
    var (n, t) := Resolve(url, head, get);
    Dispatch(n, t, run, fallback, Handlers)
  }

  /** `process(url)`. */
  method Process(url: string, head: Probe, get: Probe, run: (Handler, string) -> Option<GrabberResult>,
                 fallback: string -> Option<GrabberResult>) returns (r: Option<GrabberResult>)
    ensures r == Processed(url, head, get, run, fallback)
  {
    var (normalized, urlType) := Resolve(url, head, get);
    for i := 0 to |Handlers|
      invariant Dispatch(normalized, urlType, run, fallback, Handlers[i..]) == Dispatch(normalized, urlType, run, fallback, Handlers)
    {
      var h := Handlers[i];
      assert Handlers[i..][1..] == Handlers[i + 1..];
      if Supports(h, urlType) {
        var outcome := run(h, normalized);
        if outcome.Some? {
          return Some(Relabel(outcome.value, urlType));
        }
        if urlType == StreamHint {
          return Some(EmptyResult(normalized, urlType));
        } else if urlType == HtmlPage {
          return Some(EmptyResult(normalized, urlType));
        }
      }
    }
    if urlType != StreamHint && urlType != HtmlPage {
      var result := fallback(normalized);
      if result.None? {
        return None;
      }
      return Some(Relabel(result.value, urlType));
    }
    return Some(EmptyResult(normalized, urlType));
  }

  // ---------------------------------------------------------------------------
  // Properties
  // ---------------------------------------------------------------------------

  /** Whatever the handlers do, a result carries the kind the resolver gave. */
  lemma {:induction false} DispatchKeepsKind(n: string, t: UrlType, run: (Handler, string) -> Option<GrabberResult>,
                                             fallback: string -> Option<GrabberResult>, hs: seq<Handler>)
    ensures Dispatch(n, t, run, fallback, hs).Some? ==> Dispatch(n, t, run, fallback, hs).value.urlType == t
    decreases |hs|
  {
    if hs != [] {
      DispatchKeepsKind(n, t, run, fallback, hs[1..]);
    }
  }

  /** The kind of a result of `process` is the resolved kind, which is never UNKNOWN. */
  lemma ProcessKeepsKind(url: string, head: Probe, get: Probe, run: (Handler, string) -> Option<GrabberResult>,
                         fallback: string -> Option<GrabberResult>)
    ensures var r := Processed(url, head, get, run, fallback);
            r.Some? ==> r.value.urlType == Resolve(url, head, get).1 && r.value.urlType != Unknown
  {
    var (n, t) := Resolve(url, head, get);
    DispatchKeepsKind(n, t, run, fallback, Handlers);
  }

  /** The handler of a kind is the one `process` uses; when it succeeds, its result wins. */
  lemma HandlerResultWins(n: string, t: UrlType, h: Handler, run: (Handler, string) -> Option<GrabberResult>,
                          fallback: string -> Option<GrabberResult>)
    requires Supports(h, t) && run(h, n).Some?
    ensures Dispatch(n, t, run, fallback, Handlers) == Some(Relabel(run(h, n).value, t))
  {
    HandlersUnfold(n, t, run, fallback);
  }

  /** A failing stream or page handler gives an empty result for the normalized URL, and nothing else is tried. */
  lemma NoFallbackForStreamsAndPages(n: string, t: UrlType, h: Handler, run: (Handler, string) -> Option<GrabberResult>,
                                     fallback: string -> Option<GrabberResult>)
    requires NoFallback(t) && Supports(h, t) && run(h, n).None?
    ensures Dispatch(n, t, run, fallback, Handlers) == Some(EmptyResult(n, t))
  {
    HandlersUnfold(n, t, run, fallback);
  }

  /**
   * A failing direct-file handler, or a kind no handler takes (UNKNOWN),
   * leads to the fresh direct-file handler, whose result is relabelled with
   * the resolved kind.
   */
  lemma FallbackForOtherKinds(n: string, t: UrlType, run: (Handler, string) -> Option<GrabberResult>,
                              fallback: string -> Option<GrabberResult>)
    requires t == Unknown || (t == DirectFile && run(DirectFileHandler, n).None?)
    ensures Dispatch(n, t, run, fallback, Handlers) ==
              (if fallback(n).Some? then Some(Relabel(fallback(n).value, t)) else None)
  {
    HandlersUnfold(n, t, run, fallback);
  }

  /** The three steps of the loop over `Handlers`, one handler each. */
  lemma HandlersUnfold(n: string, t: UrlType, run: (Handler, string) -> Option<GrabberResult>,
                       fallback: string -> Option<GrabberResult>)
    ensures Dispatch(n, t, run, fallback, Handlers) ==
              Step(n, t, run, DirectFileHandler, Dispatch(n, t, run, fallback, [PageHandler, HlsHandler]))
    ensures Dispatch(n, t, run, fallback, [PageHandler, HlsHandler]) ==
              Step(n, t, run, PageHandler, Dispatch(n, t, run, fallback, [HlsHandler]))
    ensures Dispatch(n, t, run, fallback, [HlsHandler]) ==
              Step(n, t, run, HlsHandler, Dispatch(n, t, run, fallback, []))
  {
    assert Handlers[1..] == [PageHandler, HlsHandler];
    assert [PageHandler, HlsHandler][1..] == [HlsHandler];
    assert [HlsHandler][1..] == [];
  }

  /** One turn of the loop for handler `h`, with `next` what the later turns give. */
  function Step(n: string, t: UrlType, run: (Handler, string) -> Option<GrabberResult>, h: Handler,
                next: Option<GrabberResult>): Option<GrabberResult>
  {
    if Supports(h, t) then
      match run(h, n)
      case Some(r) => Some(Relabel(r, t))
      case None => if NoFallback(t) then Some(EmptyResult(n, t)) else next
    else next
  }

  /**
   * When every handler returns a result (none of the three modelled
   * handlers raises), `process` never reaches the fallback: its result is
   * that of the handler of the resolved kind.
   */
  lemma HandlersThatNeverFail(url: string, head: Probe, get: Probe, run: (Handler, string) -> Option<GrabberResult>,
                              fallback: string -> Option<GrabberResult>)
    requires forall h: Handler, u: string :: run(h, u).Some?
    ensures var (n, t) := Resolve(url, head, get);
            var h := match t case DirectFile => DirectFileHandler case HtmlPage => PageHandler case _ => HlsHandler;
            Processed(url, head, get, run, fallback) == Some(Relabel(run(h, n).value, t))
  {
    var (n, t) := Resolve(url, head, get);
    var h := match t case DirectFile => DirectFileHandler case HtmlPage => PageHandler case _ => HlsHandler;
    assert Supports(h, t);
    HandlerResultWins(n, t, h, run, fallback);
  }
}
