/** The engine's bookkeeping (state.rs): the known primitives, the logical clock, what was last
    put on disk, and the saved frontiers. */
module State {
  import opened Prelude
  import opened Objects

  /** Content hash per path. */
  type Hashes = map<Path, Oid>

  function AddOne(known: seq<Oid>, o: Oid): seq<Oid> {
    if o in known then known else known + [o]
  }

  function At<T>(m: map<Path, T>, p: Path): Option<T> {
    if p in m then Some(m[p]) else None
  }

  class EngineState {
    var known: seq<Oid>
    var counter: nat
    var observed: nat
    var materialized: Hashes
    var snapshots: map<string, seq<Oid>>
    var bootstrapPending: bool

    constructor ()
      ensures known == [] && counter == 0 && observed == 0
      ensures materialized == map[] && snapshots == map[] && !bootstrapPending
    {
      known, counter, observed := [], 0, 0;
      materialized, snapshots, bootstrapPending := map[], map[], false;
    }

    /** The known list never gains a repeat, and never loses or reorders what it had. */
    method AddKnown(o: Oid)
      modifies this`known
      ensures known == AddOne(old(known), o)
      ensures NoDuplicates(old(known)) ==> NoDuplicates(known)
      ensures Elements(known) == Elements(old(known)) + {o} && old(known) <= known
    {
      if o !in known {
        known := known + [o];
      }
    }

    /** One more than anything observed; never handed out twice. */
    method NextCounter() returns (c: nat)
      modifies this`counter, this`observed
      ensures c == counter == observed == old(observed) + 1
    {
      c := observed + 1;
      counter := c;
      observed := Max(observed, c);
    }

    method Observe(c: nat)
      modifies this`observed
      ensures observed == Max(old(observed), c)
    {
      observed := Max(observed, c);
    }
  }
}
