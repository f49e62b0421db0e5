/**
 * Byte-stream protocol engines, abstractly.
 *
 * The web socket, the web inspector and the device listener all read a stream that arrives
 * in pieces: a handler looks at the bytes not yet consumed and either waits for more, or takes
 * some of them and changes state, or takes some of them and stops the connection.
 */
module Incremental {
  import opened Bytes

  /** What a handler makes of the unread input. */
  datatype Outcome<S> =
    | Wait
    | Go(next: S, used: nat)
    | Stop(next: S, used: nat)

  /**
   * `rank` bounds the steps that consume nothing; `safe` marks the inputs on which the handler
   * reads only what its step consumes.
   */
  datatype Machine<!S> = Machine(
    step: (S, seq<byte>) -> Outcome<S>,
    rank: S -> nat,
    safe: (S, seq<byte>) -> bool)

  /** The state, the unread input, and whether the connection was stopped. */
  datatype Reached<S> = Reached(state: S, rest: seq<byte>, stopped: bool)

  ghost predicate Progresses<S(!new)>(m: Machine<S>) {
    forall s, input :: ProgressesAt(m, s, input)
  }

  ghost predicate ProgressesAt<S>(m: Machine<S>, s: S, input: seq<byte>) {
    var o := m.step(s, input);
    && (!o.Wait? ==> o.used <= |input|)
    && (o.Go? && o.used == 0 ==> m.rank(o.next) < m.rank(s))
  }

  /** More input does not change a safe step that already fired. */
  ghost predicate Monotone<S(!new)>(m: Machine<S>) {
    forall s, a, b :: MonotoneAt(m, s, a, b)
  }

  ghost predicate MonotoneAt<S>(m: Machine<S>, s: S, a: seq<byte>, b: seq<byte>) {
    !m.step(s, a).Wait? && m.safe(s, a + b) ==> m.step(s, a + b) == m.step(s, a)
  }

  /** The receive loop: step until the handler waits or stops. */
  ghost function Run<S(!new)>(m: Machine<S>, s: S, input: seq<byte>): (r: Reached<S>)
    requires Progresses(m)
    ensures |r.rest| <= |input| && r.rest == input[|input| - |r.rest|..]
    ensures !r.stopped ==> m.step(r.state, r.rest).Wait?
    decreases |input|, m.rank(s)
  {
    assert ProgressesAt(m, s, input);
    match m.step(s, input)
    case Wait => Reached(s, input, false)
    case Stop(next, used) => Reached(next, input[used..], true)
    case Go(next, used) => Run(m, next, input[used..])
  }

  /** One turn of the receive loop. */
  lemma RunTurn<S(!new)>(m: Machine<S>, s: S, input: seq<byte>)
    requires Progresses(m)
    ensures var o := m.step(s, input);
            && (o.Wait? ==> Run(m, s, input) == Reached(s, input, false))
            && (!o.Wait? ==> o.used <= |input|)
            && (o.Stop? ==> Run(m, s, input) == Reached(o.next, input[o.used..], true))
            && (o.Go? ==> Run(m, s, input) == Run(m, o.next, input[o.used..]))
  {
    assert ProgressesAt(m, s, input);
  }

  /** Every step of the run on `input` is safe. */
  ghost predicate SafeRun<S(!new)>(m: Machine<S>, s: S, input: seq<byte>)
    requires Progresses(m)
    decreases |input|, m.rank(s)
  {
    assert ProgressesAt(m, s, input);
    var o := m.step(s, input);
    m.safe(s, input) && (o.Go? ==> SafeRun(m, o.next, input[o.used..]))
  }

  /** Feed the chunks one at a time, keeping unread input between them, until one of them stops. */
  ghost function Feed<S(!new)>(m: Machine<S>, s: S, pending: seq<byte>, chunks: seq<seq<byte>>): Reached<S>
    requires Progresses(m)
    decreases |chunks|
  {
    if chunks == [] then Reached(s, pending, false)
    else
      var r := Run(m, s, pending + chunks[0]);
      if r.stopped then r else Feed(m, r.state, r.rest, chunks[1..])
  }

  /** One chunk, and two. */
  lemma FeedShort<S(!new)>(m: Machine<S>, s: S, a: seq<byte>, b: seq<byte>)
    requires Progresses(m)
    ensures Concat([a]) == a && Concat([a, b]) == a + b
    ensures var r := Run(m, s, a);
            && Feed(m, s, [], [a]) == r
            && Feed(m, s, [], [a, b]) == if r.stopped then r else Run(m, r.state, r.rest + b)
  {
    hide Run, Progresses;
    assert [] + a == a;
    assert [a][1..] == [] && [a, b][1..] == [b] && [b][1..] == [];
    assert Concat([b]) == b + [];
    var r := Run(m, s, a);
    if !r.stopped {
      var r' := Run(m, r.state, r.rest + b);
      assert Feed(m, r.state, r.rest, [b]) == if r'.stopped then r' else Feed(m, r'.state, r'.rest, []);
    }
  }

  function Concat(chunks: seq<seq<byte>>): seq<byte> {
    if chunks == [] then [] else chunks[0] + Concat(chunks[1..])
  }

  lemma ConcatFirst(chunks: seq<seq<byte>>)
    requires chunks != []
    ensures Concat(chunks) == chunks[0] + Concat(chunks[1..])
  {
  }

  lemma Associative(a: seq<byte>, b: seq<byte>, c: seq<byte>)
    ensures a + (b + c) == a + b + c
  {
  }

  lemma {:induction false} ConcatAppend(a: seq<seq<byte>>, b: seq<seq<byte>>)
    ensures Concat(a + b) == Concat(a) + Concat(b)
  {
    if a == [] {
      assert a + b == b;
    } else {
      ConcatAppend(a[1..], b);
      ConcatFirst(a);
      ConcatFirst(a + b);
      hide Concat;
      assert (a + b)[0] == a[0] && (a + b)[1..] == a[1..] + b;
      Associative(a[0], Concat(a[1..]), Concat(b));
    }
  }

  /** A run on `a` followed by `b` goes through the state that the run on `a` alone reaches. */
  lemma {:induction false} RunAppend<S(!new)>(m: Machine<S>, s: S, a: seq<byte>, b: seq<byte>)
    requires Progresses(m) && Monotone(m)
    requires SafeRun(m, s, a + b)
    ensures var r := Run(m, s, a);
            if r.stopped then Run(m, s, a + b) == Reached(r.state, r.rest + b, true)
            else Run(m, s, a + b) == Run(m, r.state, r.rest + b) && SafeRun(m, r.state, r.rest + b)
    decreases |a|, m.rank(s)
  {
    assert ProgressesAt(m, s, a) && ProgressesAt(m, s, a + b) && MonotoneAt(m, s, a, b);
    match m.step(s, a)
    case Wait =>
    case Stop(next, used) =>
      assert (a + b)[used..] == a[used..] + b;
    case Go(next, used) =>
      assert (a + b)[used..] == a[used..] + b;
      RunAppend(m, next, a[used..], b);
  }

  /**
   * However a stream is cut into chunks, feeding them reaches the state that the whole stream
   * reaches in one piece; after a stop the only difference is the input that was never fed.
   */
  lemma {:induction false} ChunkingIrrelevant<S(!new)>(m: Machine<S>, s: S, pending: seq<byte>, chunks: seq<seq<byte>>)
    requires Progresses(m) && Monotone(m)
    requires m.step(s, pending).Wait?
    requires SafeRun(m, s, pending + Concat(chunks))
    ensures var whole, fed := Run(m, s, pending + Concat(chunks)), Feed(m, s, pending, chunks);
            && fed.state == whole.state && fed.stopped == whole.stopped
            && fed.rest <= whole.rest
            && (!whole.stopped ==> fed.rest == whole.rest)
    decreases |chunks|
  {
    if chunks == [] {
      assert pending + Concat(chunks) == pending;
    } else {
      var first, others := chunks[0], Concat(chunks[1..]);
      assert pending + Concat(chunks) == (pending + first) + others;
      RunAppend(m, s, pending + first, others);
      var r := Run(m, s, pending + first);
      if !r.stopped {
        ChunkingIrrelevant(m, r.state, r.rest, chunks[1..]);
      }
    }
  }

  /** Two ways of cutting the same stream reach the same state. */
  lemma AnyTwoCutsAgree<S(!new)>(m: Machine<S>, s: S, one: seq<seq<byte>>, two: seq<seq<byte>>)
    requires Progresses(m) && Monotone(m)
    requires m.step(s, []).Wait?
    requires Concat(one) == Concat(two) && SafeRun(m, s, Concat(one))
    ensures var a, b := Feed(m, s, [], one), Feed(m, s, [], two);
            && a.state == b.state && a.stopped == b.stopped
            && (!a.stopped ==> a.rest == b.rest)
  {
    assert [] + Concat(one) == Concat(one);
    assert [] + Concat(two) == Concat(two);
    ChunkingIrrelevant(m, s, [], one);
    ChunkingIrrelevant(m, s, [], two);
  }
}
