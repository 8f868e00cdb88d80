/**
 * The shared scrollback: a sequence of events in arrival order, capped at 100.
 * An append adds at the tail and, when the log then holds more than 100 events,
 * drops exactly one event from the head.
 */
module History {

  const Capacity: nat := 100

  /** The last `n` elements of `s` (all of `s` when it is shorter), in order. */
  function Latest<T>(s: seq<T>, n: nat): seq<T> {
    if |s| <= n then s else s[|s| - n..]
  }

  /** The append of the join and message handlers: push, then drop the head once if over capacity. */
  function Append<T>(log: seq<T>, e: T): (r: seq<T>)
    ensures |r| > 0 && r[|r| - 1] == e
    ensures |log| <= Capacity ==> |r| <= Capacity && r == Latest(log + [e], Capacity)
    ensures |log| < Capacity ==> r == log + [e]
    ensures |log| == Capacity ==> r[..Capacity - 1] == log[1..]
  {
    var grown := log + [e];
    if |grown| > Capacity then grown[1..] else grown
  }

  /** Appending a batch of events one at a time, in order. */
  function AppendAll<T>(log: seq<T>, es: seq<T>): seq<T>
    decreases |es|
  {
    if |es| == 0 then log else AppendAll(Append(log, es[0]), es[1..])
  }

  lemma AppendAllOne<T>(log: seq<T>, a: T)
    ensures AppendAll(log, [a]) == Append(log, a)
  {
    assert [a][1..] == [];
  }

  lemma AppendAllTwo<T>(log: seq<T>, a: T, b: T)
    ensures AppendAll(log, [a, b]) == Append(Append(log, a), b)
  {
    assert [a, b][1..] == [b];
    AppendAllOne(Append(log, a), b);
  }

  /** Keeping the latest `n` twice is keeping them once, whatever is appended in between. */
  lemma LatestAbsorbs<T>(s: seq<T>, t: seq<T>, n: nat)
    ensures Latest(Latest(s, n) + t, n) == Latest(s + t, n)
  {
    var m := Latest(s, n);
    if |s| > n {
      var k := |s| - n;
      assert m == s[k..];
      assert m + t == (s + t)[k..];
    }
  }

  /** Two rounds of keeping the latest `n` are one round over everything appended. */
  lemma LatestChain<T>(h0: seq<T>, a: seq<T>, h1: seq<T>, b: seq<T>, n: nat)
    requires h1 == Latest(h0 + a, n)
    ensures Latest(h1 + b, n) == Latest(h0 + (a + b), n)
  {
    LatestAbsorbs(h0 + a, b, n);
    assert h0 + a + b == h0 + (a + b);
  }

  /**
   * However many appends happen, the log holds exactly the most recent (at most 100)
   * events, in the order they were appended.
   */
  lemma {:induction false} AppendAllKeepsLatest<T>(log: seq<T>, es: seq<T>)
    requires |log| <= Capacity
    ensures |AppendAll(log, es)| <= Capacity
    ensures AppendAll(log, es) == Latest(log + es, Capacity)
    decreases |es|
  {
    if |es| == 0 {
      assert log + es == log;
    } else {
      var next := Append(log, es[0]);
      AppendAllKeepsLatest(next, es[1..]);
      LatestChain(log, [es[0]], next, es[1..], Capacity);
      assert [es[0]] + es[1..] == es;
    }
  }
}
