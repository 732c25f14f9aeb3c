/** The random source, injected as explicit draws. A draw is what np.random.random() returns,
    a real in [0, 1); np.random.randint(n) and np.random.choice(xs) turn one such draw into
    an index, so that a uniform draw gives a uniform index. */
module Random {

  /** One sample of np.random.random(). */
  type Draw = r: real | 0.0 <= r < 1.0 witness 0.0

  /** np.random.randint(n): an index in [0, n) read off a draw. */
  function Pick(u: Draw, n: nat): (i: nat)
    requires n > 0
    ensures i < n
  {
    var x := u * (n as real);
    assert x < n as real by {
      assert u * (n as real) < 1.0 * (n as real);
    }
    x.Floor
  }

  /** Every index in [0, n) is the pick of some draw, so no arm is out of reach. */
  lemma PickReachesEvery(n: nat, i: nat)
    requires i < n
    ensures (i as real) / (n as real) < 1.0
    ensures Pick((i as real) / (n as real), n) == i
  {
    var u: real := (i as real) / (n as real);
    assert u * (n as real) == i as real;
  }

  /** np.random.choice(xs): one member of a non-empty sequence of indices. */
  function Choice(xs: seq<nat>, u: Draw): (x: nat)
    requires |xs| > 0
    ensures x in xs
  {
    xs[Pick(u, |xs|)]
  }
}
