/** How evenly `seq % num_streams`, cast to a byte, spreads the chunks over the stream ids
    (cli/src/quic_transport.rs). */
module Streams {
  import opened Bytes
  import opened Wire

  /** How many of the chunks 0 .. n-1 carry the stream id. */
  function Load(streams: nat, n: nat, id: byte): nat
    requires streams > 0
  {
    if n == 0 then 0 else Load(streams, n - 1, id) + if StreamId(streams, n - 1) == id then 1 else 0
  }

  /** The ids in use. */
  function Ids(streams: nat): nat { if streams < 256 then streams else 256 }

  /** Whatever the file size, no stream gets two chunks more than another. */
  ghost predicate Balanced(streams: nat)
    requires streams > 0
  {
    forall n: nat, i: byte, j: byte :: i < Ids(streams) && j < Ids(streams) ==>
      Load(streams, n, i) <= Load(streams, n, j) + 1
  }

  lemma NextDivMod(n: nat, d: nat)
    requires d > 0
    ensures (n + 1) % d == (if n % d == d - 1 then 0 else n % d + 1)
    ensures (n + 1) / d == (if n % d == d - 1 then n / d + 1 else n / d)
  {
    if n % d == d - 1 {
      DivModUnique(n + 1, d, n / d + 1, 0);
    } else {
      DivModUnique(n + 1, d, n / d, n % d + 1);
    }
  }

  /** The share of an id among the first n chunks, as if dealt out in turn. */
  function Share(streams: nat, n: nat, id: byte): nat
    requires streams > 0
  {
    n / streams + if id < n % streams then 1 else 0
  }

  lemma ShareNext(streams: nat, n: nat, id: byte)
    requires streams > 0 && id < streams
    ensures Share(streams, n + 1, id) == Share(streams, n, id) + if n % streams == id then 1 else 0
  {
    NextDivMod(n, streams);
  }

  lemma SmallId(streams: nat, m: nat)
    requires 0 < streams <= 256
    ensures StreamId(streams, m) == m % streams
  {
    DivModUnique(m % streams, 256, 0, m % streams);
  }

  lemma {:induction false} LoadOf(streams: nat, n: nat, id: byte)
    requires 0 < streams <= 256 && id < streams
    ensures Load(streams, n, id) == Share(streams, n, id)
  {
    if n == 0 {
      DivModUnique(0, streams, 0, 0);
    } else {
      LoadOf(streams, n - 1, id);
      SmallId(streams, n - 1);
      ShareNext(streams, n - 1, id);
    }
  }

  lemma ModMultiple(n: nat, streams: nat, k: nat)
    requires streams > 0 && streams == 256 * k
    ensures n % streams % 256 == n % 256
  {
    var q, r := n / streams, n % streams;
    assert n == q * streams + r;
    assert q * streams == 256 * (q * k);
    DivModUnique(n, 256, q * k + r / 256, r % 256);
  }

  /** Wrapping around evenly, or not at all so far, is the same as 256 streams. */
  lemma SameId(streams: nat, m: nat)
    requires streams > 0 && (streams % 256 == 0 || m < streams)
    ensures StreamId(streams, m) == StreamId(256, m)
  {
    SmallId(256, m);
    if m < streams {
      DivModUnique(m, streams, 0, m);
    } else {
      ModMultiple(m, streams, streams / 256);
    }
  }

  lemma {:induction false} SameLoad(streams: nat, n: nat, id: byte)
    requires streams > 0 && (streams % 256 == 0 || n <= streams)
    ensures Load(streams, n, id) == Load(256, n, id)
  {
    if n > 0 {
      SameLoad(streams, n - 1, id);
      SameId(streams, n - 1);
    }
  }

  lemma IdRepeats(streams: nat, m: nat)
    requires streams > 0
    ensures StreamId(streams, streams + m) == StreamId(streams, m)
  {
    var q, r := m / streams, m % streams;
    assert m == q * streams + r && streams + m == (q + 1) * streams + r;
    DivModUnique(streams + m, streams, q + 1, r);
  }

  lemma {:induction false} LoadRepeats(streams: nat, n: nat, id: byte)
    requires streams > 0
    ensures Load(streams, streams + n, id) == Load(streams, streams, id) + Load(streams, n, id)
  {
    if n > 0 {
      LoadRepeats(streams, n - 1, id);
      IdRepeats(streams, n - 1);
    }
  }

  /** The spread is even exactly when the cast to a byte loses nothing or wraps around evenly. */
  lemma BalancedIff(streams: nat)
    requires streams > 0
    ensures Balanced(streams) <==> streams <= 256 || streams % 256 == 0
  {
    if streams <= 256 || streams % 256 == 0 {
      forall n: nat, i: byte, j: byte | i < Ids(streams) && j < Ids(streams)
        ensures Load(streams, n, i) <= Load(streams, n, j) + 1
      {
        if streams > 256 {
          SameLoad(streams, n, i);
          SameLoad(streams, n, j);
        }
        LoadOf(Ids(streams), n, i);
        LoadOf(Ids(streams), n, j);
      }
    } else {
      var r := streams % 256;
      LoadOfTwoRounds(streams, 0);
      LoadOfTwoRounds(streams, r);
      assert Load(streams, streams + streams, 0) > Load(streams, streams + streams, r) + 1;
    }
  }

  lemma LoadOfTwoRounds(streams: nat, id: byte)
    requires streams > 0
    ensures Load(streams, streams + streams, id) == 2 * Share(256, streams, id)
  {
    LoadRepeats(streams, streams, id);
    SameLoad(streams, streams, id);
    LoadOf(256, streams, id);
  }
}
