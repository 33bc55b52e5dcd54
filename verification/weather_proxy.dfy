/** The caching proxy in front of the weather service (`WeatherServiceProxy`).
    The wrapped service is a parameter `api`: `api(k)` is what the service
    answers on its k-th call (counting from 0). */
module WeatherProxy {
  import opened Wrappers
  import opened Strings

  /** Reply of the wrapped `WeatherApiService`, whatever the call. */
  const DefaultReply: string := "Sunny, 25\U{00B0}C"

  function DefaultApi(k: nat): string {
    DefaultReply
  }

  /** `cachedData` of the proxy; `apiCalls` counts calls made to the
      wrapped service so far. */
  datatype Proxy = Proxy(cachedData: Option<string>, apiCalls: nat)

  /** Result of one `getWeatherData` call: the proxy afterwards and the
      string returned to the caller. */
  datatype Reply = Reply(proxy: Proxy, data: string)

  /** A fresh proxy: nothing cached, the service never called. */
  function NewProxy(): (p: Proxy)
    ensures p.cachedData.None? && p.apiCalls == 0
  {
    Proxy(None, 0)
  }

  /** Fetches from the service when nothing is cached, otherwise serves the
      cached string without calling the service. */
  function GetWeatherData(p: Proxy, api: nat -> string): (r: Reply)
    ensures p.cachedData.None? ==>
              r.data == api(p.apiCalls)
              && r.proxy == Proxy(Some(r.data), p.apiCalls + 1)
    ensures p.cachedData.Some? ==> r.data == p.cachedData.value && r.proxy == p
  {
    match p.cachedData
    case None =>
      var fetched := api(p.apiCalls);
      Reply(Proxy(Some(fetched), p.apiCalls + 1), fetched)
    case Some(cached) =>
      Reply(p, cached)
  }

  /** `n` successive calls on the proxy: the proxy afterwards and the
      strings returned, in call order. */
  function GetRepeatedly(p: Proxy, api: nat -> string, n: nat): (Proxy, seq<string>)
    decreases n
  {
    if n == 0 then (p, [])
    else
      var first := GetWeatherData(p, api);
      var rest := GetRepeatedly(first.proxy, api, n - 1);
      (rest.0, [first.data] + rest.1)
  }

  /** Once something is cached, calls return it and leave the proxy alone. */
  lemma {:induction false} CachedIsStable(p: Proxy, api: nat -> string, n: nat)
    requires p.cachedData.Some?
    ensures GetRepeatedly(p, api, n).0 == p
    ensures GetRepeatedly(p, api, n).1 == seq(n, i => p.cachedData.value)
    decreases n
  {
    if n > 0 {
      CachedIsStable(p, api, n - 1);
    }
  }

  /** From a fresh proxy, `n >= 1` calls all return the first fetched string,
      and the wrapped service is called exactly once. */
  lemma {:induction false} FetchOnce(api: nat -> string, n: nat)
    requires n >= 1
    ensures GetRepeatedly(NewProxy(), api, n).0.apiCalls == 1
    ensures GetRepeatedly(NewProxy(), api, n).1 == seq(n, i => api(0))
  {
    var first := GetWeatherData(NewProxy(), api);
    CachedIsStable(first.proxy, api, n - 1);
  }

  /** `getWeatherFiveTimes` run against the proxy: five calls, results
      joined by line feeds. */
  method GetWeatherFiveTimes(p: Proxy, api: nat -> string) returns (after: Proxy, text: string)
    ensures p.cachedData.Some? ==>
              after == p && text == JoinLines(seq(5, i => p.cachedData.value))
    ensures p.cachedData.None? ==>
              after.apiCalls == p.apiCalls + 1
              && text == JoinLines(seq(5, i => api(p.apiCalls)))
  {
    var results: seq<string> := [];
    var cur := p;
    var k := 0;
    while k < 5
      invariant 0 <= k <= 5 && |results| == k
      invariant p.cachedData.Some? ==> cur == p
      invariant p.cachedData.None? && k == 0 ==> cur == p
      invariant p.cachedData.None? && k > 0 ==>
                  cur == Proxy(Some(api(p.apiCalls)), p.apiCalls + 1)
      invariant forall i :: 0 <= i < k ==>
                  results[i] == (if p.cachedData.Some? then p.cachedData.value else api(p.apiCalls))
    {
      var reply := GetWeatherData(cur, api);
      results := results + [reply.data];
      cur := reply.proxy;
      k := k + 1;
    }
    after := cur;
    var expected := if p.cachedData.Some? then p.cachedData.value else api(p.apiCalls);
    assert results == seq(5, i => expected);
    text := JoinLines(results);
  }

  /** With the default wrapped service, the five-times screen shows the
      default reply five times, one per line. */
  method DefaultFiveTimes() returns (text: string)
    ensures text == DefaultReply + "\n" + DefaultReply + "\n" + DefaultReply + "\n"
                    + DefaultReply + "\n" + DefaultReply
  {
    var after;
    after, text := GetWeatherFiveTimes(NewProxy(), DefaultApi);
    var d := DefaultReply;
    assert seq(5, i => DefaultApi(0)) == [d, d, d, d, d];
    assert JoinLines([d, d]) == d + "\n" + JoinLines([d]);
    assert JoinLines([d, d, d]) == d + "\n" + JoinLines([d, d]);
    assert JoinLines([d, d, d, d]) == d + "\n" + JoinLines([d, d, d]);
    assert JoinLines([d, d, d, d, d]) == d + "\n" + JoinLines([d, d, d, d]);
  }
}
