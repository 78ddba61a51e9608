/** `debounce(fn, wait)`: a single-slot cancel-and-reschedule timer. Every
    call clears the pending timer and schedules a new one carrying the
    latest arguments; when a timer expires, the callback runs with them.
    Real time is not modelled: expiry is an input of its own. */
module Debounce {
  import opened Wrappers

  /** What can happen to a debounced function: it is called, or its
      timer expires (the `wait` milliseconds pass with no further call). */
  datatype Input<A> = Call(args: A) | Expire

  /** The pending slot after one input: a call always (re)schedules, an
      expiry always empties the slot. */
  function After<A>(pending: Option<A>, input: Input<A>): Option<A>
  {
    match input
    case Call(a) => Some(a)
    case Expire => None
  }

  /** The callback run by one input: only an expiry runs it, and only when a
      call is pending (`clearTimeout` already discarded every earlier one). */
  function Fired<A>(pending: Option<A>, input: Input<A>): seq<A>
  {
    if input.Expire? && pending.Some? then [pending.value] else []
  }

  /** The callbacks run, in order, along a trace of inputs. */
  function Runs<A>(pending: Option<A>, trace: seq<Input<A>>): seq<A>
    decreases |trace|
  {
    if trace == [] then []
    else Fired(pending, trace[0]) + Runs(After(pending, trace[0]), trace[1..])
  }

  /** The pending slot at the end of a trace. */
  function PendingAfter<A>(pending: Option<A>, trace: seq<Input<A>>): Option<A>
    decreases |trace|
  {
    if trace == [] then pending else PendingAfter(After(pending, trace[0]), trace[1..])
  }

  /** Reference definition: the calls that survive are exactly those that
      the next input lets expire, in the order they were made. */
  function Survivors<A>(trace: seq<Input<A>>): seq<A>
    decreases |trace|
  {
    if |trace| < 2 then []
    else (if trace[0].Call? && trace[1].Expire? then [trace[0].args] else []) + Survivors(trace[1..])
  }

  /** The callbacks run from a slot are the slot's value if the trace opens
      with an expiry, then the surviving calls. */
  lemma {:induction false} RunsAreSurvivors<A>(pending: Option<A>, trace: seq<Input<A>>)
    ensures Runs(pending, trace) == (if trace == [] then [] else Fired(pending, trace[0])) + Survivors(trace)
    decreases |trace|
  {
    if trace != [] {
      var rest := trace[1..];
      RunsAreSurvivors(After(pending, trace[0]), rest);
      if rest != [] {
        assert rest[0] == trace[1];
      }
    }
  }

  /** From an idle timer, a callback runs exactly for every call followed
      directly by an expiry: a call superseded by a later one never runs. */
  lemma RunsFromIdle<A>(trace: seq<Input<A>>)
    ensures Runs(None, trace) == Survivors(trace)
  {
    RunsAreSurvivors(None, trace);
  }

  /** A burst of calls as inputs. */
  function Calls<A>(burst: seq<A>): (r: seq<Input<A>>)
    ensures |r| == |burst|
    ensures forall k :: 0 <= k < |burst| ==> r[k] == Call(burst[k])
  {
    seq(|burst|, k requires 0 <= k < |burst| => Call(burst[k]))
  }

  /** A burst of calls runs nothing while it lasts and leaves its last call pending. */
  lemma {:induction false} BurstPending<A>(pending: Option<A>, burst: seq<A>)
    requires burst != []
    ensures Runs(pending, Calls(burst)) == []
    ensures PendingAfter(pending, Calls(burst)) == Some(burst[|burst| - 1])
    decreases |burst|
  {
    var t := Calls(burst);
    if |burst| > 1 {
      assert t[1..] == Calls(burst[1..]);
      BurstPending(Some(burst[0]), burst[1..]);
    } else {
      assert t[1..] == [];
    }
  }

  /** The pending slot decides what an input sequence does next: running a
      trace in two parts is running it whole. */
  lemma {:induction false} RunsAppend<A>(pending: Option<A>, t: seq<Input<A>>, u: seq<Input<A>>)
    ensures Runs(pending, t + u) == Runs(pending, t) + Runs(PendingAfter(pending, t), u)
    decreases |t|
  {
    if t == [] {
      assert t + u == u;
    } else {
      assert (t + u)[0] == t[0];
      assert (t + u)[1..] == t[1..] + u;
      RunsAppend(After(pending, t[0]), t[1..], u);
    }
  }

  /** Whatever was pending before, a burst of calls followed by the quiet
      period runs the callback once, with the arguments of the last call. */
  lemma BurstRunsOnce<A>(pending: Option<A>, burst: seq<A>)
    requires burst != []
    ensures Runs(pending, Calls(burst) + [Expire]) == [burst[|burst| - 1]]
  {
    BurstPending(pending, burst);
    RunsAppend(pending, Calls(burst), [Expire]);
    var last := Some(burst[|burst| - 1]);
    assert Runs(last, [Expire]) == Fired(last, Expire) + Runs(None, []);
  }

  /** The closure `debounced` together with the `timer` it captures. */
  class Debouncer<A> {
    /** The delay in milliseconds; it only times the expiry, which is an input here. */
    const wait: nat
    /** The arguments of the scheduled callback, None when no timer is pending. */
    var pending: Option<A>

    constructor (wait: nat)
      ensures this.wait == wait && pending == None
    {
      this.wait := wait;
      pending := None;
    }

    /** `debounced(...args)`: `clearTimeout(timer)`, then a new `setTimeout`. */
    method Debounced(args: A)
      modifies this
      ensures pending == After(old(pending), Call(args))
      ensures pending == Some(args)
    {
      pending := Some(args);
    }

    /** The pending timer expires: the callback runs with its arguments. */
    method Timeout() returns (ran: seq<A>)
      modifies this
      ensures ran == Fired(old(pending), Expire)
      ensures pending == After(old(pending), Expire)
    {
      if pending.Some? {
        ran := [pending.value];
      } else {
        ran := [];
      }
      pending := None;
    }
  }
}
