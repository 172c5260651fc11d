/** What an operation hands to cache_sync, call by call. */
module FsTrace {

  import opened Basics
  import opened LogFormat

  // A block is synced with these contents.
  datatype Put = Put(b: nat, data: Block)

  // The disk after the syncs tr.
  function Applied(d: Disk, tr: seq<Put>): (d2: Disk)
    ensures |d2| == |d|
    decreases tr
  {
    if tr == [] then d
    else
      var n := |tr| - 1;
      var d1 := Applied(d, tr[..n]);
      if tr[n].b < |d1| then d1[tr[n].b := tr[n].data] else d1
  }

  function Blocks(tr: seq<Put>): set<nat>
    decreases tr
  {
    if tr == [] then {} else Blocks(tr[..|tr| - 1]) + {tr[|tr| - 1].b}
  }

  lemma {:induction false} AppliedConcat(d: Disk, a: seq<Put>, b: seq<Put>)
    ensures Applied(d, a + b) == Applied(Applied(d, a), b) && Blocks(a + b) == Blocks(a) + Blocks(b)
    decreases b
  {
    if b == [] {
      assert a + b == a;
    } else {
      var n := |b| - 1;
      AppliedConcat(d, a, b[..n]);
      assert (a + b)[..|a + b| - 1] == a + b[..n];
    }
  }

  // A block that is not synced stays as it is.
  lemma {:induction false} AppliedKeeps(d: Disk, tr: seq<Put>, b: nat)
    requires b < |d| && b !in Blocks(tr)
    ensures Applied(d, tr)[b] == d[b]
    decreases tr
  {
    if tr != [] { AppliedKeeps(d, tr[..|tr| - 1], b); }
  }

  // From d, log and tr to d2, log2 and tr2 by syncs alone.
  ghost predicate AllLogged(d: Disk, log: set<nat>, tr: seq<Put>, d2: Disk, log2: set<nat>, tr2: seq<Put>) {
    && |tr| <= |tr2| && tr2[..|tr|] == tr
    && d2 == Applied(d, tr2[|tr|..]) && log2 == log + Blocks(tr2[|tr|..])
  }

  lemma {:induction false} AllLoggedRefl(d: Disk, log: set<nat>, tr: seq<Put>)
    ensures AllLogged(d, log, tr, d, log, tr)
  {
    assert tr[|tr|..] == [];
  }

  lemma {:induction false} AllLoggedOne(d: Disk, log: set<nat>, tr: seq<Put>, b: nat, data: Block)
    requires b < |d|
    ensures AllLogged(d, log, tr, d[b := data], log + {b}, tr + [Put(b, data)])
  {
    var t := [Put(b, data)];
    assert (tr + t)[|tr|..] == t && t[..0] == [];
  }

  lemma {:induction false} AllLoggedTrans(d: Disk, log: set<nat>, tr: seq<Put>, d2: Disk, log2: set<nat>, tr2: seq<Put>,
                                          d3: Disk, log3: set<nat>, tr3: seq<Put>)
    requires AllLogged(d, log, tr, d2, log2, tr2) && AllLogged(d2, log2, tr2, d3, log3, tr3)
    ensures AllLogged(d, log, tr, d3, log3, tr3)
  {
    AppliedConcat(d, tr2[|tr|..], tr3[|tr2|..]);
    assert tr3[|tr|..] == tr2[|tr|..] + tr3[|tr2|..];
  }

  lemma {:induction false} ChangedIsLogged(d: Disk, log: set<nat>, tr: seq<Put>, d2: Disk, log2: set<nat>,
                                           tr2: seq<Put>, b: nat)
    requires AllLogged(d, log, tr, d2, log2, tr2) && b < |d| && b < |d2| && d2[b] != d[b]
    ensures b in log2
  {
    if b !in log2 { AppliedKeeps(d, tr2[|tr|..], b); }
  }
}
