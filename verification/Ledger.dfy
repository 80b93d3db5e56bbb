/**
 What the collector stores, and which snapshots an artifact may be built from: `store`, `withdraw`
 and `latest_per_instance` of server/commons.py. Rows are kept in the order they were received.
 */
module Ledger {
  import opened Pooling

  datatype Stored = Stored(instance: string, received: real, patterns: seq<Row>, grants: set<string>)

  datatype Snapshot = Snapshot(received: real, patterns: seq<Row>)

  /** Whether a stored row may reach an artifact built for this use. */
  predicate Usable(gone: set<string>, grant: string, r: Stored) {
    r.instance !in gone && grant in r.grants
  }

  function Latest(rows: seq<Stored>, gone: set<string>, grant: string): map<string, Snapshot> {
    if rows == [] then map[]
    else
      var r := rows[|rows| - 1];
      var before := Latest(rows[..|rows| - 1], gone, grant);
      if Usable(gone, grant, r) then before[r.instance := Snapshot(r.received, r.patterns)] else before
  }

  class Commons {
    var rows: seq<Stored>
    var gone: set<string>

    constructor ()
      ensures rows == [] && gone == {}
    {
      rows, gone := [], {};
    }

    method Store(instance: string, received: real, patterns: seq<Row>, grants: set<string>)
      modifies this`rows
      ensures rows == old(rows) + [Stored(instance, received, patterns, grants)]
    {
      rows := rows + [Stored(instance, received, patterns, grants)];
    }

    /** Rows stay; nothing built afterwards reads them. */
    method Withdraw(instance: string) returns (n: nat)
      modifies this`gone
      ensures gone == old(gone) + {instance}
      ensures n == |set i | 0 <= i < |rows| && rows[i].instance == instance|
    {
      gone := gone + {instance};
      n := 0;
      ghost var counted: set<int> := {};
      for i := 0 to |rows|
        invariant n == |counted| && counted == set k | 0 <= k < i && rows[k].instance == instance
      {
        if rows[i].instance == instance {
          n := n + 1;
          counted := counted + {i};
        }
      }
    }

    method LatestPerInstance(grant: string) returns (out: map<string, Snapshot>)
      ensures out == Latest(rows, gone, grant)
    {
      out := map[];
      for i := 0 to |rows|
        invariant out == Latest(rows[..i], gone, grant)
      {
        assert rows[..i + 1][..i] == rows[..i];
        if rows[i].instance in gone {
          continue;
        }
        if grant !in rows[i].grants {
          continue;
        }
        out := out[rows[i].instance := Snapshot(rows[i].received, rows[i].patterns)];
      }
      assert rows[..|rows|] == rows;
    }
  }

  // ---------------------------------------------------------------- what is read

  /** Row `j` is an instance's newest usable one. */
  ghost predicate Newest(rows: seq<Stored>, gone: set<string>, grant: string, instance: string, j: int) {
    && 0 <= j < |rows| && rows[j].instance == instance && Usable(gone, grant, rows[j])
    && forall k :: j < k < |rows| && rows[k].instance == instance ==> !Usable(gone, grant, rows[k])
  }

  /** An instance counts once, by its newest snapshot for this use, and only while it has not withdrawn. */
  lemma {:induction false} LatestIsNewest(rows: seq<Stored>, gone: set<string>, grant: string, instance: string)
    ensures instance in Latest(rows, gone, grant) <==> exists j :: Newest(rows, gone, grant, instance, j)
    ensures forall j :: Newest(rows, gone, grant, instance, j) ==>
              instance in Latest(rows, gone, grant) && Latest(rows, gone, grant)[instance] == Snapshot(rows[j].received, rows[j].patterns)
  {
    if rows != [] {
      var n := |rows| - 1;
      var before := rows[..n];
      LatestIsNewest(before, gone, grant, instance);
      hide Usable;
      if rows[n].instance == instance && Usable(gone, grant, rows[n]) {
        assert Newest(rows, gone, grant, instance, n);
      } else {
        forall j
          ensures Newest(rows, gone, grant, instance, j) <==> Newest(before, gone, grant, instance, j)
        {
          NewestBefore(rows, gone, grant, instance, j);
        }
      }
    }
  }

  lemma NewestBefore(rows: seq<Stored>, gone: set<string>, grant: string, instance: string, j: int)
    requires rows != [] && !(rows[|rows| - 1].instance == instance && Usable(gone, grant, rows[|rows| - 1]))
    ensures Newest(rows, gone, grant, instance, j) <==> Newest(rows[..|rows| - 1], gone, grant, instance, j)
  {
    hide Usable;
    var before := rows[..|rows| - 1];
    assert forall k :: 0 <= k < |before| ==> before[k] == rows[k];
  }

  // ---------------------------------------------------------------- withdrawal lasts

  datatype Act = Sends(row: Stored) | Withdraws(instance: string)

  function Play(rows: seq<Stored>, gone: set<string>, acts: seq<Act>): (seq<Stored>, set<string>) {
    if acts == [] then (rows, gone)
    else
      var (r, g) := Play(rows, gone, acts[..|acts| - 1]);
      match acts[|acts| - 1]
      case Sends(row) => (r + [row], g)
      case Withdraws(instance) => (r, g + {instance})
  }

  lemma {:induction false} GoneStaysGone(rows: seq<Stored>, gone: set<string>, acts: seq<Act>)
    ensures gone <= Play(rows, gone, acts).1
  {
    if acts != [] {
      GoneStaysGone(rows, gone, acts[..|acts| - 1]);
    }
  }

  /** Nothing sent before or after brings a withdrawn instance back, for any use. */
  lemma WithdrawalLasts(rows: seq<Stored>, gone: set<string>, acts: seq<Act>, instance: string, grant: string)
    requires instance in gone
    ensures var (r, g) := Play(rows, gone, acts); instance !in Latest(r, g, grant)
  {
    var (r, g) := Play(rows, gone, acts);
    GoneStaysGone(rows, gone, acts);
    LatestIsNewest(r, g, grant, instance);
  }
}
