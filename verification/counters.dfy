/** The two identifier generators of `IbkrApi`: `get_order_id` and
`get_req_id` each hand out the counter's current value and store
`(value + 1) % modulus`. The comments beside them promise a wrap to 1 and to
10000; the arithmetic wraps both to 0, and this module states what the
arithmetic does.

Python's `%` with a positive modulus agrees with Dafny's: the remainder lies
in `[0, modulus)` for every integer operand.
 */
module Counters {

  const OrderIdModulus := 10000
  const ReqIdModulus := 20000

  /** The counter values `IbkrApi.__init__` stores. */
  const InitialOrderId := 1
  const InitialReqId := 10000

  /** The effect of one call: the identifier handed out and the counter left behind. */
  datatype Draw = Draw(issued: int, next: int)

  /** One call of a generator whose counter is taken modulo `modulus`. */
  function Advance(counter: int, modulus: int): (d: Draw)
    requires modulus > 0
    ensures d.issued == counter
    ensures 0 <= d.next < modulus
    ensures 0 <= counter < modulus - 1 ==> d.next == counter + 1
    ensures counter == modulus - 1 ==> d.next == 0
  {
    Draw(counter, (counter + 1) % modulus)
  }

  /** The counter step of `IbkrApi.get_order_id`. */
  function NextOrderId(counter: int): Draw {
    Advance(counter, OrderIdModulus)
  }

  /** The counter step of `IbkrApi.get_req_id`. */
  function NextReqId(counter: int): Draw {
    Advance(counter, ReqIdModulus)
  }

  /** The identifiers handed out by `n` consecutive calls starting from `counter`. */
  function Issued(counter: int, modulus: int, n: nat): seq<int>
    requires modulus > 0
    decreases n
  {
    if n == 0 then [] else [counter] + Issued(Advance(counter, modulus).next, modulus, n - 1)
  }

  /** The counter after `n` consecutive calls starting from `counter`. */
  function CounterAfter(counter: int, modulus: int, n: nat): int
    requires modulus > 0
    decreases n
  {
    if n == 0 then counter else CounterAfter(Advance(counter, modulus).next, modulus, n - 1)
  }

  /** Position `i` of a cycle that starts at `counter`, without `%`. */
  function CyclePosition(counter: int, modulus: int, i: int): int {
    if counter + i < modulus then counter + i else counter + i - modulus
  }

  /** Within one cycle from an in-range counter, the `i`-th call (counting
      from 0) hands out `counter + i`, or `counter + i - modulus` once that
      passes the top: the ids count up by one and wrap to 0. The counter
      left after `n` calls is the next position of the cycle. */
  lemma {:induction false} IssuedWithinCycle(counter: int, modulus: int, n: nat)
    requires 0 <= counter < modulus && n <= modulus
    ensures |Issued(counter, modulus, n)| == n
    ensures forall i :: 0 <= i < n ==> Issued(counter, modulus, n)[i] == CyclePosition(counter, modulus, i)
    ensures CounterAfter(counter, modulus, n) == CyclePosition(counter, modulus, n)
    decreases n
  {
    if n > 0 {
      var next := Advance(counter, modulus).next;
      assert next == CyclePosition(counter, modulus, 1);
      IssuedWithinCycle(next, modulus, n - 1);
      var ids := Issued(counter, modulus, n);
      assert ids == [counter] + Issued(next, modulus, n - 1);
      forall i | 0 < i < n
        ensures ids[i] == CyclePosition(counter, modulus, i)
      {
        assert ids[i] == CyclePosition(next, modulus, i - 1);
      }
    }
  }

  /** One full cycle of `modulus` calls from an in-range counter hands out every
      value of `[0, modulus)` exactly once (0 included, once per cycle) and
      brings the counter back to where it started. */
  lemma OneCycleIssuesEachIdOnce(counter: int, modulus: int)
    requires 0 <= counter < modulus
    ensures |Issued(counter, modulus, modulus)| == modulus
    ensures forall i, j :: 0 <= i < j < modulus ==>
      Issued(counter, modulus, modulus)[i] != Issued(counter, modulus, modulus)[j]
    ensures forall v :: 0 <= v < modulus ==> v in Issued(counter, modulus, modulus)
    ensures CounterAfter(counter, modulus, modulus) == counter
  {
    IssuedWithinCycle(counter, modulus, modulus);
    var ids := Issued(counter, modulus, modulus);
    forall v | 0 <= v < modulus
      ensures v in ids
    {
      var i := if v >= counter then v - counter else v + modulus - counter;
      assert ids[i] == v;
    }
  }

  /** The repository's test: a fresh order counter, called 10000 times, hands
      out 1 on the next call. */
  lemma OrderIdTestScenario()
    ensures CounterAfter(InitialOrderId, OrderIdModulus, OrderIdModulus) == InitialOrderId
    ensures NextOrderId(CounterAfter(InitialOrderId, OrderIdModulus, OrderIdModulus)).issued == 1
  {
    OneCycleIssuesEachIdOnce(InitialOrderId, OrderIdModulus);
  }

  /** The order counter wraps from 9999 to 0, not to 1: the call after the one
      that hands out 9999 hands out 0. */
  lemma OrderIdWrapsToZero()
    ensures NextOrderId(9999).issued == 9999
    ensures NextOrderId(NextOrderId(9999).next).issued == 0
  {
  }

  /** A fresh request counter hands out 10000, 10001, ..., 19999 and then 0,
      not 10000: after the wrap request ids enter the range 0..9999. */
  lemma ReqIdSequenceFromStart()
    ensures |Issued(InitialReqId, ReqIdModulus, 10001)| == 10001
    ensures forall i :: 0 <= i < 10000 ==> Issued(InitialReqId, ReqIdModulus, 10001)[i] == 10000 + i
    ensures Issued(InitialReqId, ReqIdModulus, 10001)[10000] == 0
  {
    IssuedWithinCycle(InitialReqId, ReqIdModulus, 10001);
  }
}
