/** Whole runs of insertions and deletions on a crit-bit tree, against a plain set. */
module CritbitRuns {
  import opened CritbitBits
  import opened Critbit

  datatype Op = Add(key: Key) | Remove(key: Key)

  ghost function Next(s: set<Key>, op: Op): set<Key> {
    if op.Add? then s + {op.key} else s - {op.key}
  }

  /** What an operation should answer. */
  ghost function Answer(s: set<Key>, op: Op): nat {
    if op.Add? then (if op.key in s then 1 else 2) else if op.key in s then 1 else 0
  }

  /** The set that operations leave. */
  ghost function After(ops: seq<Op>): set<Key> {
    if ops == [] then {} else Next(After(ops[..|ops| - 1]), ops[|ops| - 1])
  }

  /** The answers that operations should give. */
  ghost function Answers(ops: seq<Op>): seq<nat> {
    if ops == [] then []
    else
      var init := ops[..|ops| - 1];
      Answers(init) + [Answer(After(init), ops[|ops| - 1])]
  }

  lemma OneMore(ops: seq<Op>, i: nat)
    requires i < |ops|
    ensures After(ops[..i + 1]) == Next(After(ops[..i]), ops[i])
    ensures Answers(ops[..i + 1]) == Answers(ops[..i]) + [Answer(After(ops[..i]), ops[i])]
  {
    assert ops[..i + 1][..i] == ops[..i];
  }

  method Apply(t: CritbitTree, op: Op) returns (r: nat)
    requires t.Valid() && NulFree(op.key)
    modifies t, t.Repr
    ensures t.Valid() && fresh(t.Repr - old(t.Repr))
    ensures t.Contents() == Next(old(t.Contents()), op) && r == Answer(old(t.Contents()), op)
  {
    if op.Add? {
      r := t.Insert(op.key, true);
    } else {
      r := t.Delete(op.key);
    }
  }

  /** Every run leaves exactly the expected set and gives the expected answers. */
  method Replay(ops: seq<Op>) returns (t: CritbitTree, answers: seq<nat>)
    requires forall i :: 0 <= i < |ops| ==> NulFree(ops[i].key)
    ensures t.Valid() && t.Contents() == After(ops) && answers == Answers(ops)
  {
    t := new CritbitTree();
    answers := [];
    ghost var contents := t.Contents();
    var i := 0;
    while i < |ops|
      invariant 0 <= i <= |ops| && fresh(t) && fresh(t.Repr) && t.Valid()
      invariant t.Contents() == contents == After(ops[..i]) && answers == Answers(ops[..i])
    {
      OneMore(ops, i);
      var r := Apply(t, ops[i]);
      contents := t.Contents();
      answers := answers + [r];
      i := i + 1;
    }
    assert ops[..i] == ops;
  }
}
