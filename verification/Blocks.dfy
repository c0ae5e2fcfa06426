/** Machines that consume one item at a time and put out any number of results for it. */
module Blocks {

  /** The state after a block of items. */
  ghost function After<S, F>(next: (S, F) -> S, s: S, fs: seq<F>): S {
    if fs == [] then s else next(After(next, s, fs[..|fs| - 1]), fs[|fs| - 1])
  }

  /** The results of a block of items. */
  ghost function Outputs<S, F, O>(next: (S, F) -> S, out: (S, F) -> seq<O>, s: S, fs: seq<F>): seq<O> {
    if fs == [] then []
    else
      var k := |fs| - 1;
      Outputs(next, out, s, fs[..k]) + out(After(next, s, fs[..k]), fs[k])
  }

  lemma OneMoreItem<S, F, O>(next: (S, F) -> S, out: (S, F) -> seq<O>, s: S, fs: seq<F>, f: F)
    ensures After(next, s, fs + [f]) == next(After(next, s, fs), f)
    ensures Outputs(next, out, s, fs + [f]) == Outputs(next, out, s, fs) + out(After(next, s, fs), f)
  {
    assert (fs + [f])[..|fs|] == fs;
  }

  /** Two blocks after each other are one block. */
  lemma {:induction false} TwoBlocks<S, F, O>(next: (S, F) -> S, out: (S, F) -> seq<O>, s: S, fs: seq<F>, gs: seq<F>)
    ensures After(next, s, fs + gs) == After(next, After(next, s, fs), gs)
    ensures Outputs(next, out, s, fs + gs) == Outputs(next, out, s, fs) + Outputs(next, out, After(next, s, fs), gs)
    decreases |gs|
  {
    if gs == [] {
      assert fs + gs == fs;
    } else {
      var k := |gs| - 1;
      assert (fs + gs)[..|fs + gs| - 1] == fs + gs[..k];
      TwoBlocks(next, out, s, fs, gs[..k]);
    }
  }
}
