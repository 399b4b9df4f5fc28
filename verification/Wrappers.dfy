/** Small datatypes and sequence functions used throughout. */
module Wrappers {
  /** A value that may be absent: the nil, the zero time, the missing map entry of the Go and TypeScript sources. */
  datatype Option<+T> = None | Some(value: T)

  /** A flow record as the stream carries it, from the aggregator to the browser. */
  datatype Flow = Flow(record: string)

  /** Some invariants are quantified over a seal, so that a proof unfolds them only where it says `assert Unlocked(seal)`. */
  datatype Seal =
    | GenerationSeal | LateSeal                                     // of the transports
    | SessionSeal | EntrySeal | StoreSeal | DropSeal | RoomSeal | RunSeal   // of the session store
    | CacheSeal | IndexSeal | WindowSeal | FlowEntrySeal | BatchSeal   // of the flow cache and client

  ghost predicate Unlocked(s: Seal) {
    true
  }

  function FlatMap<A, B>(f: A -> seq<B>, xs: seq<A>): seq<B> {
    if xs == [] then [] else FlatMap(f, xs[..|xs| - 1]) + f(xs[|xs| - 1])
  }

  lemma {:induction false} FlatMapConcat<A, B>(f: A -> seq<B>, xs: seq<A>, ys: seq<A>)
    ensures FlatMap(f, xs + ys) == FlatMap(f, xs) + FlatMap(f, ys)
  {
    if ys == [] {
      assert xs + ys == xs;
    } else {
      FlatMapConcat(f, xs, ys[..|ys| - 1]);
      assert (xs + ys)[..|xs + ys| - 1] == xs + ys[..|ys| - 1];
    }
  }

  lemma FlatMapSnoc<A, B>(f: A -> seq<B>, xs: seq<A>, x: A)
    ensures FlatMap(f, xs + [x]) == FlatMap(f, xs) + f(x)
  {
    assert (xs + [x])[..|xs|] == xs;
  }

  lemma FlatMapOne<A, B>(f: A -> seq<B>, x: A)
    ensures FlatMap(f, [x]) == f(x)
  {
    assert [x][..0] == [];
  }

  lemma FlatMapPrefix<A, B>(f: A -> seq<B>, xs: seq<A>, ys: seq<A>)
    requires xs <= ys
    ensures FlatMap(f, xs) <= FlatMap(f, ys)
  {
    FlatMapConcat(f, xs, ys[|xs|..]);
    assert xs + ys[|xs|..] == ys;
  }

  lemma {:induction false} FlatMapSame<A, B>(f: A -> seq<B>, g: A -> seq<B>, xs: seq<A>)
    requires forall x <- xs :: f(x) == g(x)
    ensures FlatMap(f, xs) == FlatMap(g, xs)
  {
    if xs != [] {
      FlatMapSame(f, g, xs[..|xs| - 1]);
    }
  }

  /** Mapping twice is mapping once, by what the two come to on each element. */
  lemma {:induction false} FlatMapTwice<A, B, C>(g: B -> seq<C>, f: A -> seq<B>, h: A -> seq<C>, xs: seq<A>)
    requires forall x <- xs :: FlatMap(g, f(x)) == h(x)
    ensures FlatMap(g, FlatMap(f, xs)) == FlatMap(h, xs)
  {
    if xs != [] {
      var init, last := xs[..|xs| - 1], xs[|xs| - 1];
      FlatMapTwice(g, f, h, init);
      FlatMapConcat(g, FlatMap(f, init), f(last));
    }
  }
}
