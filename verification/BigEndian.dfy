/** Unsigned numbers written most significant byte first. */
module BigEndian {
  import opened Bytes
  import opened Gpt

  function BE(b: Bytes): nat {
    if b == [] then 0 else 256 * BE(b[..|b| - 1]) + b[|b| - 1]
  }

  function ToBE(n: nat, k: nat): (r: Bytes)
    ensures |r| == k
  {
    if k == 0 then [] else ToBE(n / 256, k - 1) + [n % 256]
  }

  lemma {:induction false} BERoundTrip(n: nat, k: nat)
    requires n < Pow256(k)
    ensures BE(ToBE(n, k)) == n
  {
    if k > 0 {
      BERoundTrip(n / 256, k - 1);
      assert ToBE(n, k)[..k - 1] == ToBE(n / 256, k - 1);
    }
  }

  lemma {:induction false} ToBERoundTrip(b: Bytes)
    ensures BE(b) < Pow256(|b|) && ToBE(BE(b), |b|) == b
  {
    if b != [] {
      ToBERoundTrip(b[..|b| - 1]);
      assert BE(b) / 256 == BE(b[..|b| - 1]) && BE(b) % 256 == b[|b| - 1];
    }
  }

  lemma ToBEInjective(m: nat, n: nat, k: nat)
    requires m < Pow256(k) && n < Pow256(k) && ToBE(m, k) == ToBE(n, k)
    ensures m == n
  {
    BERoundTrip(m, k);
    BERoundTrip(n, k);
  }
}
