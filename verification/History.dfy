/** Versions over whole runs of repository writes. */
module History {
  import opened Wrappers
  import opened Schema
  import opened Store
  import opened Integrity

  // ---------------------------------------------------------------- runs

  function Final(t: Tables, ops: seq<Op>): Tables {
    if ops == [] then t else Execute(Final(t, ops[..|ops| - 1]), ops[|ops| - 1]).0
  }

  /** The tables just before write `i`, and its reply. */
  function Before(t: Tables, ops: seq<Op>, i: nat): Tables
    requires i <= |ops|
  {
    Final(t, ops[..i])
  }

  function ReplyAt(t: Tables, ops: seq<Op>, i: nat): Reply
    requires i < |ops|
  {
    Execute(Before(t, ops, i), ops[i]).1
  }

  lemma BeforeNext(t: Tables, ops: seq<Op>, i: nat)
    requires i < |ops|
    ensures Before(t, ops, i + 1) == Execute(Before(t, ops, i), ops[i]).0
  {
    assert ops[..i + 1][..i] == ops[..i];
  }

  /** Every state reached from a sound one, the empty one in particular, is sound. */
  lemma {:induction false} RunsKeepSound(t: Tables, ops: seq<Op>)
    requires Sound(t)
    ensures Sound(Final(t, ops))
  {
    if ops != [] {
      var n := |ops| - 1;
      RunsKeepSound(t, ops[..n]);
      WriteKeepsSound(Final(t, ops[..n]), ops[n]);
    }
  }

  // ---------------------------------------------------------------- versions

  datatype Key = IssuerKey(id: Id) | SecurityKey(id: Id)

  function KeyOf(op: Op): Key {
    if op.InsertIssuer? || op.PatchIssuer? || op.UpdateIssuer? || op.DeleteIssuer? then IssuerKey(op.id)
    else SecurityKey(op.id)
  }

  function VersionAt(t: Tables, key: Key): Option<nat> {
    if key.IssuerKey? then IssuerVersion(t, key.id) else SecurityVersion(t, key.id)
  }

  predicate IsInsert(op: Op) {
    op.InsertIssuer? || op.InsertSecurity?
  }

  predicate IsDelete(op: Op) {
    op.DeleteIssuer? || op.DeleteSecurity?
  }

  /** What each reply tells its caller about the row, and what it leaves behind. */
  lemma ReplyMeaning(t: Tables, op: Op)
    ensures var (q, reply) := Execute(t, op);
            var version := VersionAt(t, KeyOf(op));
            && (reply == Inserted ==> IsInsert(op) && version == None)
            && (reply == Wrote(Missing) <==> !IsInsert(op) && version == None)
            && (reply == Wrote(Applied) ==> !IsInsert(op) && version == Some(op.expected))
            && (reply.Wrote? && reply.outcome.VersionMismatch? ==>
                  && reply.outcome.expected == op.expected
                  && version == Some(reply.outcome.actual)
                  && reply.outcome.actual != reply.outcome.expected)
            && (reply != Inserted && reply != Wrote(Applied) ==> q == t)
  {}

  /** What a write does to the version of any row. */
  lemma VersionStep(t: Tables, op: Op, key: Key)
    ensures var (q, reply) := Execute(t, op);
            VersionAt(q, key) ==
            if KeyOf(op) != key then VersionAt(t, key)
            else if reply == Inserted then Some(1)
            else if reply != Wrote(Applied) then VersionAt(t, key)
            else if IsDelete(op) then None
            else Some(op.expected + 1)
  {}

  /** Patches and updates applied to a row since it was last inserted. */
  function WritesSinceInsert(t: Tables, ops: seq<Op>, key: Key): nat {
    if ops == [] then 0
    else
      var n := |ops| - 1;
      var reply := Execute(Final(t, ops[..n]), ops[n]).1;
      var earlier := WritesSinceInsert(t, ops[..n], key);
      if KeyOf(ops[n]) != key then earlier
      else if reply == Inserted then 0
      else if reply == Wrote(Applied) && !IsDelete(ops[n]) then earlier + 1
      else earlier
  }

  /** Over every run from the empty tables, a version counts the writes of the row's present life. */
  lemma {:induction false} VersionCountsWrites(ops: seq<Op>, key: Key)
    ensures VersionAt(Final(EMPTY, ops), key).Some? ==>
            VersionAt(Final(EMPTY, ops), key).value == 1 + WritesSinceInsert(EMPTY, ops, key)
  {
    if ops != [] {
      var n := |ops| - 1;
      VersionCountsWrites(ops[..n], key);
      VersionStep(Final(EMPTY, ops[..n]), ops[n], key);
      ReplyMeaning(Final(EMPTY, ops[..n]), ops[n]);
    }
  }

  // ---------------------------------------------------------------- no lost update

  /** The row is gone, or has moved past the version `expected`. */
  predicate Past(t: Tables, key: Key, expected: nat) {
    VersionAt(t, key).Some? ==> VersionAt(t, key).value > expected
  }

  /** Once a write at `expected` applied, that version never comes back in the same life of the row. */
  lemma {:induction false} VersionIsSpent(t: Tables, ops: seq<Op>, i: nat, m: nat)
    requires i < m <= |ops| && !IsInsert(ops[i]) && ReplyAt(t, ops, i) == Wrote(Applied)
    requires forall k | i < k < m && KeyOf(ops[k]) == KeyOf(ops[i]) :: ReplyAt(t, ops, k) != Inserted
    ensures Past(Before(t, ops, m), KeyOf(ops[i]), ops[i].expected)
  {
    var key := KeyOf(ops[i]);
    BeforeNext(t, ops, m - 1);
    VersionStep(Before(t, ops, m - 1), ops[m - 1], key);
    if m - 1 > i {
      VersionIsSpent(t, ops, i, m - 1);
      assert KeyOf(ops[m - 1]) == key ==> ReplyAt(t, ops, m - 1) != Inserted;
      ReplyMeaning(Before(t, ops, m - 1), ops[m - 1]);
    }
  }

  /**
   No lost update: of all writes that expect the same version of the same row, two can apply only if the
   row was inserted anew in between.
   */
  lemma OneWritePerVersion(t: Tables, ops: seq<Op>, i: nat, j: nat)
    requires i < j < |ops| && !IsInsert(ops[i]) && !IsInsert(ops[j])
    requires KeyOf(ops[i]) == KeyOf(ops[j]) && ops[i].expected == ops[j].expected
    requires ReplyAt(t, ops, i) == Wrote(Applied) && ReplyAt(t, ops, j) == Wrote(Applied)
    ensures exists k :: i < k < j && KeyOf(ops[k]) == KeyOf(ops[i]) && ReplyAt(t, ops, k) == Inserted
  {
    if forall k | i < k < j && KeyOf(ops[k]) == KeyOf(ops[i]) :: ReplyAt(t, ops, k) != Inserted {
      VersionIsSpent(t, ops, i, j);
      ReplyMeaning(Before(t, ops, j), ops[j]);
    }
  }

  /** From the empty tables no expected version is ever unreadable before 2^32 - 1 writes have applied. */
  lemma UnreadableNeedsManyWrites(ops: seq<Op>, op: Op)
    requires Execute(Final(EMPTY, ops), op).1 == Faulted(UnreadableVersion)
    ensures WritesSinceInsert(EMPTY, ops, KeyOf(op)) == 4294967295
  {
    EmptyIsSound();
    RunsKeepSound(EMPTY, ops);
    VersionCountsWrites(ops, KeyOf(op));
    var t := Final(EMPTY, ops);
    if KeyOf(op).SecurityKey? {
      assert SecurityOk(t, op.id);
    }
  }
}
