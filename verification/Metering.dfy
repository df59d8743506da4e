/** Caller-owned work accounting, as handed to the availability index by its users. */
module Metering {
  import opened Wrappers

  /** The charge callback of one call: an arbitrary decision depending on all charges it was asked for. */
  class Meter<E> {
    const policy: seq<nat> -> Option<E>
    var log: seq<nat>
    ghost var spent: nat // the sum of all charges

    constructor (policy: seq<nat> -> Option<E>)
      ensures this.policy == policy && log == [] && spent == 0 && Live()
    {
      this.policy := policy;
      log := [];
      spent := 0;
    }

    /** No charge was refused so far. */
    ghost predicate Live()
      reads this
    {
      forall i | 0 < i <= |log| :: policy(log[..i]).None?
    }

    /** Either no charge was refused, or exactly the last one was, with the reported error. */
    ghost predicate Ended(failure: Option<E>)
      reads this
    {
      match failure
      case None => Live()
      case Some(e) => log != [] && policy(log) == failure && forall i | 0 < i < |log| :: policy(log[..i]).None?
    }

    method Charge(n: nat) returns (failure: Option<E>)
      requires Live()
      modifies this
      ensures log == old(log) + [n] && failure == policy(log) && Ended(failure)
      ensures spent == old(spent) + n
    {
      log, spent := log + [n], spent + n;
      assert log[..|log| - 1] == old(log);
      assert log[..|log|] == log;
      assert forall i | 0 < i < |log| :: log[..i] == old(log)[..i];
      failure := policy(log);
    }
  }
}
