/**
 Which fingerprints of a container are indexed: index_sampling_uniform of src/index/sampling_method.c.
 */
module Sampling {
  import opened Common
  import opened DedupSpec

  /** The k-th multiple of r is the position of fp. */
  predicate AtMultiple(fps: seq<Fingerprint>, r: nat, k: nat, fp: Fingerprint) {
    k * r < |fps| && fps[k * r] == fp
  }

  /** Every ratio-th fingerprint of a container is indexed, from the first on; no others, and as many as that makes. */
  lemma SampledUniform(cfg: Config, c: Container)
    requires cfg.sampleRatio >= 1
    ensures forall fp :: fp in Sampled(cfg, c) <==>
              exists k: nat :: AtMultiple(c.fps, cfg.sampleRatio, k, fp)
    ensures Distinct(c.fps) ==> |Sampled(cfg, c)| == (|c.fps| + cfg.sampleRatio - 1) / cfg.sampleRatio
  {
    hide Sampled, Distinct;
    var r := cfg.sampleRatio;
    forall fp ensures fp in Sampled(cfg, c) <==> exists k: nat :: AtMultiple(c.fps, r, k, fp) {
      SampledMultiple(cfg, c, fp);
    }
    EveryIs(c.fps, r, |c.fps|);
    AllEvery(cfg, c);
  }

  lemma SampledMultiple(cfg: Config, c: Container, fp: Fingerprint)
    requires cfg.sampleRatio >= 1
    ensures fp in Sampled(cfg, c) <==> exists k: nat :: AtMultiple(c.fps, cfg.sampleRatio, k, fp)
  {
    hide AtMultiple;
    var r := cfg.sampleRatio;
    if fp in Sampled(cfg, c) {
      var i: nat :| i < |c.fps| && (r <= 1 || i % r == 0) && c.fps[i] == fp;
      IsMultiple(c.fps, r, i);
    }
    if exists k: nat :: AtMultiple(c.fps, r, k, fp) {
      var k: nat :| AtMultiple(c.fps, r, k, fp);
      var i := PositionOf(c.fps, r, k, fp);
    }
  }

  lemma IsMultiple(fps: seq<Fingerprint>, r: nat, i: nat)
    requires i < |fps| && r >= 1 && (r <= 1 || i % r == 0)
    ensures AtMultiple(fps, r, i / r, fps[i])
  {}

  lemma PositionOf(fps: seq<Fingerprint>, r: nat, k: nat, fp: Fingerprint) returns (i: nat)
    requires r >= 1 && AtMultiple(fps, r, k, fp)
    ensures i < |fps| && i % r == 0 && fps[i] == fp
  {
    i := k * r;
    MultipleMod(k, r);
  }

  lemma AllEvery(cfg: Config, c: Container)
    requires cfg.sampleRatio >= 1
    ensures Sampled(cfg, c) == Every(c.fps, cfg.sampleRatio, |c.fps|)
  {
    assert cfg.sampleRatio == 1 ==> forall i: nat :: i % cfg.sampleRatio == 0;
  }

  lemma MultipleMod(k: nat, r: nat)
    requires r >= 1
    ensures (k * r) % r == 0
  {
    DivIs(k * r, r, k, 0);
  }

  function Every(fps: seq<Fingerprint>, r: nat, n: nat): set<Fingerprint>
    requires n <= |fps| && r >= 1
  {
    set i: nat | i < n && i % r == 0 :: fps[i]
  }

  lemma {:induction false} EveryIs(fps: seq<Fingerprint>, r: nat, n: nat)
    requires n <= |fps| && r >= 1
    ensures Distinct(fps) ==> |Every(fps, r, n)| == (n + r - 1) / r
  {
    if n == 0 {
      assert Every(fps, r, 0) == {};
      CeilStep(0, r);
    } else {
      EveryIs(fps, r, n - 1);
      CeilStep(n - 1, r);
      var before := Every(fps, r, n - 1);
      if (n - 1) % r == 0 {
        assert Every(fps, r, n) == before + {fps[n - 1]};
        assert Distinct(fps) ==> fps[n - 1] !in before;
      } else {
        assert Every(fps, r, n) == before;
      }
    }
  }

  /** Rounding up grows by one at every multiple of r. */
  lemma CeilStep(n: nat, r: nat)
    requires r >= 1
    ensures (r - 1) / r == 0
    ensures (n + 1 + r - 1) / r == (n + r - 1) / r + if n % r == 0 then 1 else 0
  {
    var q, m := n / r, n % r;
    assert n == q * r + m;
    if m == 0 {
      DivIs(n + r - 1, r, q, r - 1);
      DivIs(n + r, r, q + 1, 0);
    } else {
      DivIs(n + r - 1, r, q + 1, m - 1);
      DivIs(n + r, r, q + 1, m);
    }
    DivIs(r - 1, r, 0, r - 1);
  }

  /** Closing a container hands it over and indexes its sampled fingerprints under its id; all else stays. */
  lemma ClosedIsIndexed(cfg: Config, st: Store)
    requires st.open.Some? && cfg.sampleRatio >= 1
    ensures var r, o := CloseOpen(cfg, st), st.open.value;
            r == st.(open := None, written := st.written[o.id := o], kv := r.kv)
            && (forall k: nat, fp :: AtMultiple(o.fps, cfg.sampleRatio, k, fp) ==> fp in r.kv && r.kv[fp] == o.id)
            && forall fp :: (forall k: nat :: !AtMultiple(o.fps, cfg.sampleRatio, k, fp)) ==>
                              (fp in r.kv <==> fp in st.kv) && (fp in st.kv ==> r.kv[fp] == st.kv[fp])
  {
    hide AtMultiple, Sampled;
    forall fp { SampledMultiple(cfg, st.open.value, fp); }
  }
}
