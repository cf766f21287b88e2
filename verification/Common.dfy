/** Names and small wrappers shared by the modules of the delivery pipeline. */
module Common {
  type ConvId = int
  type MessageId = int
  type UserId = int

  datatype Option<+T> = None | Some(value: T)

  datatype Result<+T, +E> = Ok(value: T) | Err(error: E)

  /** An arbitrary but fixed function of conversation ids, such as a checksum; ids not listed go to 0. */
  type Hash = imap<ConvId, int>

  function HashOf(h: Hash, conv: ConvId): int {
    if conv in h then h[conv] else 0
  }

  function Max(a: int, b: int): int {
    if a < b then b else a
  }

  function Min(a: int, b: int): int {
    if a < b then a else b
  }

  /** Some member of a set, as when a map is ranged over. */
  method Pick<T>(s: set<T>) returns (x: T)
    requires s != {}
    ensures x in s
  {
    x :| x in s;
  }

  lemma AnyMember<T>(s: set<T>) returns (x: T)
    requires s != {}
    ensures x in s
  {
    x :| x in s;
  }

  /** A number larger than every member of a finite set, so that fresh names exist. */
  lemma FreshAbove(s: set<int>) returns (n: nat)
    ensures forall k :: k in s ==> k < n
    decreases |s|
  {
    if s == {} {
      n := 0;
    } else {
      var k := AnyMember(s);
      var m := FreshAbove(s - {k});
      assert s == (s - {k}) + {k};
      n := Max(m, k + 1);
    }
  }

  /** The calls that a component makes to the outside, a database, Redis or a broker, and the context that may be
      cancelled under it. `failures` counts what was reported as an error; what such a call did is not known. */
  class Environment {
    ghost var failures: nat

    constructor ()
      ensures failures == 0
    {
      failures := 0;
    }

    method Fails() returns (failed: bool)
      modifies this
      ensures failures == old(failures) + if failed then 1 else 0
    {
      failed := *;
      failures := if failed then failures + 1 else failures;
    }
  }
}
