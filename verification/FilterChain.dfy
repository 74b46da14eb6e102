/** The filters of src/filters/base.hpp and how src/forwarder.hpp puts them together. */
module FilterChain {
  import opened AesTables
  import opened AesBlock
  import AesInPlace
  import AesModes
  import AesFilter

  type Datagram = seq<byte>

  /** An object behind a BaseFilter pointer: a filter of some kind, a chain, or a reversed filter. */
  datatype Filter =
    | Basic(forward: Datagram -> Datagram, backward: Datagram -> Datagram)
    | Chained(filters: seq<Filter>)
    | Reversed(inner: Filter)

  /** convertForward */
  function Forward(f: Filter, x: Datagram): Datagram
    decreases f, 0
  {
    match f
    case Basic(forward, _) => forward(x)
    case Chained(filters) => ForwardAll(filters, x)
    case Reversed(inner) => Backward(inner, x)
  }

  /** convertBackward */
  function Backward(f: Filter, x: Datagram): Datagram
    decreases f, 0
  {
    match f
    case Basic(_, backward) => backward(x)
    case Chained(filters) => BackwardAll(filters, x)
    case Reversed(inner) => Forward(inner, x)
  }

  /** Every filter in turn, the first one first */
  function ForwardAll(filters: seq<Filter>, x: Datagram): Datagram
    decreases filters, |filters|
  {
    if filters == [] then x else Forward(filters[|filters| - 1], ForwardAll(filters[..|filters| - 1], x))
  }

  /** The last one first */
  function BackwardAll(filters: seq<Filter>, x: Datagram): Datagram
    decreases filters, |filters|
  {
    if filters == [] then x else BackwardAll(filters[..|filters| - 1], Backward(filters[|filters| - 1], x))
  }

  /** ChainedFilters::convertForward */
  method ConvertForward(filters: seq<Filter>, datagram: Datagram) returns (r: Datagram)
    ensures r == Forward(Chained(filters), datagram)
  {
    r := datagram;
    for i := 0 to |filters|
      invariant r == ForwardAll(filters[..i], datagram)
    {
      assert filters[..i + 1][..i] == filters[..i];
      r := Forward(filters[i], r);
    }
    assert filters[..|filters|] == filters;
  }

  /** ChainedFilters::convertBackward */
  method ConvertBackward(filters: seq<Filter>, datagram: Datagram) returns (r: Datagram)
    ensures r == Backward(Chained(filters), datagram)
  {
    r := datagram;
    assert filters[..|filters|] == filters;
    for i := |filters| downto 0
      invariant BackwardAll(filters[..i], r) == BackwardAll(filters, datagram)
    {
      assert filters[..i + 1][..i] == filters[..i];
      r := Backward(filters[i], r);
    }
  }

  // ---- round trips -------------------------------------------------------------------------

  /** On its way through the filters x comes back out of each of them. */
  ghost predicate Comes(filters: seq<Filter>, x: Datagram) {
    filters == [] ||
    (var n := |filters| - 1;
     var y := ForwardAll(filters[..n], x);
     Comes(filters[..n], x) && Backward(filters[n], Forward(filters[n], y)) == y)
  }

  /** A chain undoes what it did, if each of its filters undoes what it did to what it was given. */
  lemma {:induction false} ChainUndoes(filters: seq<Filter>, x: Datagram)
    requires Comes(filters, x)
    ensures Backward(Chained(filters), Forward(Chained(filters), x)) == x
  {
    if filters != [] {
      var n := |filters| - 1;
      ChainUndoes(filters[..n], x);
      assert Forward(Chained(filters[..n]), x) == ForwardAll(filters[..n], x);
    }
  }

  ghost predicate Undoes(f: Filter) { forall x :: Backward(f, Forward(f, x)) == x }

  lemma {:induction false} ComesEverywhere(filters: seq<Filter>, x: Datagram)
    requires forall i :: 0 <= i < |filters| ==> Undoes(filters[i])
    ensures Comes(filters, x)
  {
    if filters != [] {
      var n := |filters| - 1;
      ComesEverywhere(filters[..n], x);
      assert Undoes(filters[n]);
    }
  }

  /** If every filter's backward undoes its forward, so does the chain's, for every list of filters. */
  lemma {:induction false} ChainOfGoodFilters(filters: seq<Filter>)
    requires forall i :: 0 <= i < |filters| ==> Undoes(filters[i])
    ensures Undoes(Chained(filters))
  {
    forall x
      ensures Backward(Chained(filters), Forward(Chained(filters), x)) == x
    {
      ComesEverywhere(filters, x);
      ChainUndoes(filters, x);
    }
  }

  // ---- the peer ----------------------------------------------------------------------------

  /** The filters the other end of the tunnel is configured with: the same in reverse order, each one
      reversed. */
  function Peer(filters: seq<Filter>): (r: seq<Filter>)
    ensures |r| == |filters|
  {
    if filters == [] then [] else [Reversed(filters[|filters| - 1])] + Peer(filters[..|filters| - 1])
  }

  lemma {:induction false} ForwardFirst(f: Filter, filters: seq<Filter>, x: Datagram)
    ensures ForwardAll([f] + filters, x) == ForwardAll(filters, Forward(f, x))
    decreases |filters|
  {
    var all, n := [f] + filters, |filters|;
    if n == 0 {
      assert all[..0] == [];
    } else {
      ForwardFirst(f, filters[..n - 1], x);
      assert all[..n] == [f] + filters[..n - 1];
    }
  }

  lemma {:induction false} BackwardFirst(f: Filter, filters: seq<Filter>, x: Datagram)
    ensures BackwardAll([f] + filters, x) == Backward(f, BackwardAll(filters, x))
    decreases |filters|
  {
    var all, n := [f] + filters, |filters|;
    if n == 0 {
      assert all[..0] == [];
    } else {
      BackwardFirst(f, filters[..n - 1], Backward(filters[n - 1], x));
      assert all[..n] == [f] + filters[..n - 1];
    }
  }

  /** The peer converts forward what this end converts backward, and the other way round. */
  lemma {:induction false} PeerMirrors(filters: seq<Filter>, x: Datagram)
    ensures Forward(Chained(Peer(filters)), x) == Backward(Chained(filters), x)
    ensures Backward(Chained(Peer(filters)), x) == Forward(Chained(filters), x)
    decreases |filters|
  {
    if filters != [] {
      var n := |filters| - 1;
      var last := filters[n];
      ForwardFirst(Reversed(last), Peer(filters[..n]), x);
      BackwardFirst(Reversed(last), Peer(filters[..n]), x);
      PeerMirrors(filters[..n], Backward(last, x));
      PeerMirrors(filters[..n], x);
      assert Forward(Chained(Peer(filters[..n])), Backward(last, x))
          == ForwardAll(Peer(filters[..n]), Backward(last, x));
      assert Backward(Chained(Peer(filters[..n])), x) == BackwardAll(Peer(filters[..n]), x);
    }
  }

  /** The tunnel is transparent: what one end sends forward the other restores when it converts it
      forward in its turn, and what that one sends back this one restores. */
  lemma {:induction false} TunnelIsTransparent(filters: seq<Filter>, x: Datagram)
    requires Comes(filters, x)
    ensures Forward(Chained(Peer(filters)), Forward(Chained(filters), x)) == x
    ensures Backward(Chained(filters), Backward(Chained(Peer(filters)), x)) == x
  {
    PeerMirrors(filters, Forward(Chained(filters), x));
    PeerMirrors(filters, x);
    ChainUndoes(filters, x);
  }

  /** A filter reversed twice does what the filter does. */
  lemma {:induction false} ReversedTwice(f: Filter, x: Datagram)
    ensures Forward(Reversed(Reversed(f)), x) == Forward(f, x)
    ensures Backward(Reversed(Reversed(f)), x) == Backward(f, x)
  {
    assert Forward(Reversed(Reversed(f)), x) == Backward(Reversed(f), x);
    assert Backward(Reversed(Reversed(f)), x) == Forward(Reversed(f), x);
  }

  /** The peer of the peer does what this end does. */
  lemma {:induction false} PeerOfPeer(filters: seq<Filter>, x: Datagram)
    ensures Forward(Chained(Peer(Peer(filters))), x) == Forward(Chained(filters), x)
    ensures Backward(Chained(Peer(Peer(filters))), x) == Backward(Chained(filters), x)
  {
    PeerMirrors(Peer(filters), x);
    PeerMirrors(filters, x);
  }

  // ---- a tunnel of AES filters -------------------------------------------------------------

  datatype AesConfig = AesConfig(mode: AesFilter.Mode, key: seq<byte>)

  function AesFilterOf(c: AesConfig): Filter {
    Basic((x: Datagram) => AesFilter.Encrypt(c.mode, c.key, x),
          (x: Datagram) => if |x| < AesFilter.MAX_DATAGRAM then AesFilter.Decrypt(c.mode, c.key, x) else x)
  }

  function AesFilters(configs: seq<AesConfig>): (r: seq<Filter>)
    ensures |r| == |configs|
  {
    seq(|configs|, i requires 0 <= i < |configs| => AesFilterOf(configs[i]))
  }

  lemma {:induction false} AesFiltersFront(configs: seq<AesConfig>)
    requires configs != []
    ensures AesFilters(configs)[..|configs| - 1] == AesFilters(configs[..|configs| - 1])
    ensures AesFilters(configs)[|configs| - 1] == AesFilterOf(configs[|configs| - 1])
  {
  }

  lemma {:induction false} AesFilterUndoes(c: AesConfig, x: Datagram)
    requires AesBlock.ValidKeySize(|c.key|) && |x| + 16 < AesFilter.MAX_DATAGRAM
    ensures Backward(AesFilterOf(c), Forward(AesFilterOf(c), x)) == x
    ensures |Forward(AesFilterOf(c), x)| <= |x| + 16
  {
    AesFilter.DecryptEncrypt(c.mode, c.key, x);
    assert |AesFilter.Encrypt(c.mode, c.key, x)| == AesModes.PaddedSize(|x|);
  }

  /** Every datagram comes back out of any number of AES filters with valid keys, in whatever modes,
      unless its size would overflow. */
  lemma {:induction false} AesComes(configs: seq<AesConfig>, x: Datagram)
    requires forall i :: 0 <= i < |configs| ==> ValidKeySize(|configs[i].key|)
    requires |x| + 16 * |configs| < AesFilter.MAX_DATAGRAM
    ensures Comes(AesFilters(configs), x)
    ensures |ForwardAll(AesFilters(configs), x)| <= |x| + 16 * |configs|
  {
    if configs != [] {
      var n := |configs| - 1;
      AesFiltersFront(configs);
      AesComes(configs[..n], x);
      AesFilterUndoes(configs[n], ForwardAll(AesFilters(configs[..n]), x));
    }
  }

  /** A tunnel of AES filters is transparent both ways. */
  lemma {:induction false} AesTunnelIsTransparent(configs: seq<AesConfig>, x: Datagram)
    requires forall i :: 0 <= i < |configs| ==> ValidKeySize(|configs[i].key|)
    requires |x| + 16 * |configs| < AesFilter.MAX_DATAGRAM
    ensures var filters := AesFilters(configs);
      && Forward(Chained(Peer(filters)), Forward(Chained(filters), x)) == x
      && Backward(Chained(filters), Backward(Chained(Peer(filters)), x)) == x
  {
    AesComes(configs, x);
    TunnelIsTransparent(AesFilters(configs), x);
  }
}
