/** `StateBuffer`: STATE payloads waiting for the streams that had cached
    records when they arrived. */
module Ledger {
  import opened Json

  /** A STATE payload as it arrived, with two pieces of bookkeeping the
      program does not keep: how many records of each stream had been cached
      before it (`seen`), and how many STATE messages came before it
      (`order`). */
  datatype Pending = Pending(payload: Json, seen: map<string, nat>, order: nat)

  /** A stored STATE and the streams it still waits for. */
  type Entry = (Pending, seq<string>)

  /** A non-empty list has a first member. */
  lemma HeadIsMember(xs: seq<string>)
    requires |xs| > 0
    ensures xs[0] in xs
  {
  }

  /** `[x for x in xs if x != s]`. */
  function Without(xs: seq<string>, s: string): (r: seq<string>)
    ensures |r| <= |xs|
    ensures forall x :: x in r <==> x in xs && x != s
  {
    if |xs| == 0 then []
    else (if xs[0] != s then [xs[0]] else []) + Without(xs[1..], s)
  }

  /** `flush_stream(s)`: no entry waits for `s` any longer; payloads and the
      order of the entries are kept, and no other stream is dropped. */
  function FlushStream(ledger: seq<Entry>, s: string): (r: seq<Entry>)
    ensures |r| == |ledger|
    ensures forall i :: 0 <= i < |ledger| ==> r[i].0 == ledger[i].0
    ensures forall i, x :: 0 <= i < |ledger| ==> (x in r[i].1 <==> x in ledger[i].1 && x != s)
  {
    seq(|ledger|, i requires 0 <= i < |ledger| => (ledger[i].0, Without(ledger[i].1, s)))
  }

  /** `pop_states_without_streams`: the payloads of the entries that wait
      for nothing, and the entries that still wait. */
  function PopReady(ledger: seq<Entry>): (r: (seq<Pending>, seq<Entry>))
    ensures |r.0| + |r.1| == |ledger|
    ensures forall e :: e in r.1 ==> e in ledger && |e.1| > 0
    decreases |ledger|
  {
    if |ledger| == 0 then ([], [])
    else
      var prev := PopReady(ledger[..|ledger| - 1]);
      var last := ledger[|ledger| - 1];
      if |last.1| == 0 then (prev.0 + [last.0], prev.1) else (prev.0, prev.1 + [last])
  }

  /** Popping a prefix of the ledger gives prefixes of both outputs. */
  lemma {:induction false} PopReadyPrefix(ledger: seq<Entry>, n: nat)
    requires n <= |ledger|
    ensures PopReady(ledger[..n]).0 <= PopReady(ledger).0
    ensures PopReady(ledger[..n]).1 <= PopReady(ledger).1
    decreases |ledger|
  {
    if n < |ledger| {
      var init := ledger[..|ledger| - 1];
      assert init[..n] == ledger[..n];
      PopReadyPrefix(init, n);
    } else {
      assert ledger[..n] == ledger;
    }
  }

  /** The two outputs partition the ledger in order: entry `i` is the next
      payload of the first output if it waits for nothing, and the next entry
      of the second output otherwise, counting from what the entries before
      it produced. */
  lemma PopReadyInterleaves(ledger: seq<Entry>, i: nat)
    requires i < |ledger|
    ensures var before, all := PopReady(ledger[..i]), PopReady(ledger);
      && |before.0| + |before.1| == i
      && (|ledger[i].1| == 0 ==> |before.0| < |all.0| && all.0[|before.0|] == ledger[i].0)
      && (|ledger[i].1| > 0 ==> |before.1| < |all.1| && all.1[|before.1|] == ledger[i])
  {
    var upto := ledger[..i + 1];
    assert upto[..i] == ledger[..i];
    PopReadyPrefix(ledger, i + 1);
  }

  /** Entries after position `n` that still wait add no payload: the ready
      payloads are those of the first `n` entries. */
  lemma {:induction false} PopReadyWaitingTail(ledger: seq<Entry>, n: nat)
    requires n <= |ledger|
    requires forall j :: n <= j < |ledger| ==> |ledger[j].1| > 0
    ensures PopReady(ledger).0 == PopReady(ledger[..n]).0
    decreases |ledger|
  {
    if n < |ledger| {
      var init := ledger[..|ledger| - 1];
      assert init[..n] == ledger[..n];
      PopReadyWaitingTail(init, n);
    } else {
      assert ledger[..n] == ledger;
    }
  }

  /** When entry `i` waits for nothing and every later entry still waits,
      the last ready payload is entry `i`'s. */
  lemma NewestReady(ledger: seq<Entry>, i: nat)
    requires i < |ledger| && |ledger[i].1| == 0
    requires forall j :: i < j < |ledger| ==> |ledger[j].1| > 0
    ensures var ready := PopReady(ledger).0;
      |ready| > 0 && ready[|ready| - 1] == ledger[i].0
  {
    PopReadyWaitingTail(ledger, i + 1);
    var upto := ledger[..i + 1];
    assert upto[..i] == ledger[..i];
  }

  /** The ledger with every entry waiting for something is left as it is. */
  lemma {:induction false} NothingReady(ledger: seq<Entry>)
    requires forall i :: 0 <= i < |ledger| ==> |ledger[i].1| > 0
    ensures PopReady(ledger) == ([], ledger)
    decreases |ledger|
  {
    if |ledger| > 0 {
      NothingReady(ledger[..|ledger| - 1]);
      assert ledger == ledger[..|ledger| - 1] + [ledger[|ledger| - 1]];
    }
  }
  /** Every stream an older entry waits for, a newer entry waits for too:
      an entry is stored waiting for every stream with cached records, and a
      flush drops its stream from all entries at once. */
  predicate Nests(ledger: seq<Entry>) {
    forall i, j, x :: 0 <= i < j < |ledger| && x in ledger[i].1 ==> x in ledger[j].1
  }

  /** Entries are stored in the order their STATE messages arrived. */
  predicate Ordered(ledger: seq<Entry>) {
    forall i, j :: 0 <= i < j < |ledger| ==> ledger[i].0.order < ledger[j].0.order
  }

  /** `flush_stream` keeps the ledger nested. */
  lemma FlushStreamNests(ledger: seq<Entry>, s: string)
    requires Nests(ledger)
    ensures Nests(FlushStream(ledger, s))
  {
    var r := FlushStream(ledger, s);
    forall i, j, x | 0 <= i < j < |r| && x in r[i].1
      ensures x in r[j].1
    {
      assert x in ledger[i].1 && x != s;
    }
  }

  /** All but the last entry of a nested ledger form a nested ledger. */
  lemma NestsInit(ledger: seq<Entry>)
    requires Nests(ledger) && |ledger| > 0
    ensures Nests(ledger[..|ledger| - 1])
  {
    var init := ledger[..|ledger| - 1];
    forall i, j, x | 0 <= i < j < |init| && x in init[i].1
      ensures x in init[j].1
    {
      assert init[i] == ledger[i] && init[j] == ledger[j];
    }
  }

  /** In a nested ledger whose last entry waits for nothing, no entry
      waits for anything. */
  lemma NestsLastReady(ledger: seq<Entry>, i: nat)
    requires Nests(ledger) && 0 <= i < |ledger| && |ledger[|ledger| - 1].1| == 0
    ensures |ledger[i].1| == 0
  {
    if |ledger[i].1| > 0 {
      HeadIsMember(ledger[i].1);
      assert false;
    }
  }

  /** In a nested ledger the entries that wait for nothing come first, so
      popping releases a prefix, in arrival order, and keeps the rest. */
  lemma {:induction false} ReadyPrefix(ledger: seq<Entry>)
    requires Nests(ledger)
    ensures var r, n := PopReady(ledger), |PopReady(ledger).0|;
      && n <= |ledger|
      && r.1 == ledger[n..]
      && (forall k :: 0 <= k < n ==> r.0[k] == ledger[k].0 && |ledger[k].1| == 0)
    decreases |ledger|
  {
    if |ledger| > 0 {
      var init, last := ledger[..|ledger| - 1], ledger[|ledger| - 1];
      NestsInit(ledger);
      ReadyPrefix(init);
      var prev := PopReady(init);
      var n := |prev.0|;
      if |last.1| == 0 {
        if n < |init| {
          assert prev.1[0] == init[n] && prev.1[0] in prev.1;
          NestsLastReady(ledger, n);
          assert false;
        }
        forall k | 0 <= k < |ledger|
          ensures PopReady(ledger).0[k] == ledger[k].0 && |ledger[k].1| == 0
        {
          NestsLastReady(ledger, k);
        }
      } else {
        assert init[n..] + [last] == ledger[n..];
      }
    }
  }
}
