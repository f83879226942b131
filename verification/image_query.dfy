/** The query settings for loading one image
    (`createImageQuery` in src/app/shared/services/image.service.ts). The
    query function itself, which loads the image, is not modelled. */
module ImageQuery {

  datatype Query = Query(queryKey: seq<string>, staleTime: nat, gcTime: nat, retry: nat)

  const MaxRetryDelay := 30000

  /** The key names the image by id and URL; cached results stay fresh for
      five minutes and are collected after ten; two retries. */
  function CreateImageQuery(id: string, url: string): (q: Query)
    ensures |q.queryKey| == 3 && q.queryKey[0] == "image"
    ensures q.queryKey[1] == id && q.queryKey[2] == url
    ensures q.staleTime == 5 * 60 * 1000 && q.gcTime == 10 * 60 * 1000
    ensures q.staleTime < q.gcTime
    ensures q.retry == 2
  {
    Query(["image", id, url], 1000 * 60 * 5, 1000 * 60 * 10, 2)
  }

  /** Different images never share a cache entry. */
  lemma QueryKeyInjective(id1: string, url1: string, id2: string, url2: string)
    requires CreateImageQuery(id1, url1).queryKey == CreateImageQuery(id2, url2).queryKey
    ensures id1 == id2 && url1 == url2
  {
  }

  function Pow2(k: nat): (r: nat)
    ensures r >= 1
  {
    if k == 0 then 1 else 2 * Pow2(k - 1)
  }

  lemma {:induction false} Pow2Monotone(i: nat, j: nat)
    requires i <= j
    ensures Pow2(i) <= Pow2(j)
    decreases j
  {
    if i < j {
      Pow2Monotone(i, j - 1);
    }
  }

  /** `retryDelay`: `min(1000 * 2^k, 30000)` milliseconds before retry `k`. */
  function RetryDelay(attemptIndex: nat): (r: nat)
    ensures 1000 <= r <= MaxRetryDelay
    ensures r == MaxRetryDelay || r == 1000 * Pow2(attemptIndex)
    ensures r <= 1000 * Pow2(attemptIndex)
  {
    var backoff := 1000 * Pow2(attemptIndex);
    if backoff < MaxRetryDelay then backoff else MaxRetryDelay
  }

  /** Longer after more failures, never shorter. */
  lemma RetryDelayMonotone(i: nat, j: nat)
    requires i <= j
    ensures RetryDelay(i) <= RetryDelay(j)
  {
    Pow2Monotone(i, j);
  }

  /** From the sixth attempt on the delay is capped at 30 seconds; before
      it, it doubles each time. */
  lemma RetryDelaySaturates(k: nat)
    ensures k >= 5 ==> RetryDelay(k) == MaxRetryDelay
    ensures k < 5 ==> RetryDelay(k) == 1000 * Pow2(k) && RetryDelay(k) < MaxRetryDelay
  {
    if k >= 5 {
      Pow2Monotone(5, k);
      assert Pow2(5) == 32;
    } else {
      assert Pow2(4) == 16;
      Pow2Monotone(k, 4);
    }
  }
}
