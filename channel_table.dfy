/** The table that maps photon-detector channel ids to the dense PMT index
    under which the analyzer keeps its per-channel accumulators
    (`PMTIndexingVector`), and the lookup into it (`GetPMTIndex`).

    The detector-type test of the mapping library (is this id an X-ARAPUCA,
    VUV or visible?) is not part of this model; it is the parameter
    `isXArapuca`. */
module ChannelTable {

  /** Number of photon-detector channel ids, PMTs and X-ARAPUCAs together. */
  const NPDS: nat := 312

  /** The PMT ordinal of a channel id: how many ids below it are not
      X-ARAPUCAs. The constructor's `tot_pmt_counter` holds this value and
      the selection list is written in these ordinals. */
  function Ordinal(isXArapuca: int -> bool, ch: nat): nat
  {
    if ch == 0 then 0
    else Ordinal(isXArapuca, ch - 1) + (if isXArapuca(ch - 1) then 0 else 1)
  }

  predicate StrictlyIncreasing(s: seq<int>)
  {
    forall i, j :: 0 <= i < j < |s| ==> s[i] < s[j]
  }

  predicate StrictlyIncreasingNat(s: seq<nat>)
  {
    forall i, j :: 0 <= i < j < |s| ==> s[i] < s[j]
  }

  /** The ids in [0, bound) that are not X-ARAPUCAs, in increasing order. */
  function PMTsBelow(isXArapuca: int -> bool, bound: nat): seq<int>
  {
    if bound == 0 then []
    else PMTsBelow(isXArapuca, bound - 1) + (if isXArapuca(bound - 1) then [] else [bound - 1])
  }

  /** PMTsBelow lists exactly the PMT ids below the bound, each once, in
      increasing order, and has one entry per PMT ordinal. */
  lemma {:induction false} PMTsBelowCharacterised(isXArapuca: int -> bool, bound: nat)
    ensures StrictlyIncreasing(PMTsBelow(isXArapuca, bound))
    ensures |PMTsBelow(isXArapuca, bound)| == Ordinal(isXArapuca, bound)
    ensures forall ch :: ch in PMTsBelow(isXArapuca, bound) <==> 0 <= ch < bound && !isXArapuca(ch)
  {
    if bound > 0 {
      PMTsBelowCharacterised(isXArapuca, bound - 1);
      var below := PMTsBelow(isXArapuca, bound - 1);
      var r := PMTsBelow(isXArapuca, bound);
      if isXArapuca(bound - 1) {
        assert r == below;
      } else {
        assert r == below + [bound - 1];
        forall k | 0 <= k < |below|
          ensures below[k] < bound - 1
        {
          assert below[k] in below;
        }
        forall ch
          ensures ch in r <==> ch in below || ch == bound - 1
        {
        }
      }
    }
  }

  /** The constructor's loop over channel ids 0..311: X-ARAPUCA ids are
      skipped; every other id is taken when all PMTs are used, or when its
      PMT ordinal equals the next entry of the selection list; with a
      selection the loop stops as soon as the whole list has been matched.

      The result is strictly increasing and holds no X-ARAPUCA; with
      `useAll` it is exactly the PMT ids; with a selection, entry k is the
      PMT whose ordinal is `selected[k]`, and an increasing selection of
      existing ordinals is matched in full. */
  method BuildIndexingVector(isXArapuca: int -> bool, useAll: bool, selected: seq<nat>)
    returns (table: seq<int>)
    requires useAll || |selected| > 0
    ensures StrictlyIncreasing(table)
    ensures forall k :: 0 <= k < |table| ==> 0 <= table[k] < NPDS && !isXArapuca(table[k])
    ensures useAll ==> table == PMTsBelow(isXArapuca, NPDS)
    ensures !useAll ==> |table| <= |selected|
    ensures !useAll ==> forall k :: 0 <= k < |table| ==> Ordinal(isXArapuca, table[k]) == selected[k]
    ensures !useAll && StrictlyIncreasingNat(selected)
            && (forall k :: 0 <= k < |selected| ==> selected[k] < Ordinal(isXArapuca, NPDS))
            ==> |table| == |selected|
  {
    var totPmtCounter: nat := 0;
    var selPmtCounter: nat := 0;
    table := [];
    var iPDS := 0;
    while iPDS < NPDS
      invariant 0 <= iPDS <= NPDS
      invariant totPmtCounter == Ordinal(isXArapuca, iPDS)
      invariant selPmtCounter == |table|
      invariant !useAll ==> selPmtCounter < |selected|
      invariant StrictlyIncreasing(table)
      invariant forall k :: 0 <= k < |table| ==> 0 <= table[k] < iPDS && !isXArapuca(table[k])
      invariant useAll ==> table == PMTsBelow(isXArapuca, iPDS)
      invariant !useAll ==> forall k :: 0 <= k < |table| ==> Ordinal(isXArapuca, table[k]) == selected[k]
      invariant !useAll && StrictlyIncreasingNat(selected) ==> selected[selPmtCounter] >= totPmtCounter
    {
      if !isXArapuca(iPDS) {
        if useAll || selected[selPmtCounter] == totPmtCounter {
          AppendLarger(table, iPDS);
          table := table + [iPDS];
          selPmtCounter := selPmtCounter + 1;
        }
        totPmtCounter := totPmtCounter + 1;
        if !useAll && selPmtCounter >= |selected| {
          break;
        }
      }
      iPDS := iPDS + 1;
    }
  }

  /** Appending an element larger than every present one keeps a sequence
      strictly increasing. */
  lemma AppendLarger(s: seq<int>, x: int)
    requires StrictlyIncreasing(s)
    requires forall k :: 0 <= k < |s| ==> s[k] < x
    ensures StrictlyIncreasing(s + [x])
  {
  }

  /** The first position of the table holding `ch`, or -1 when none does. */
  function IndexOf(table: seq<int>, ch: int): (r: int)
    ensures -1 <= r < |table|
    ensures r == -1 <==> ch !in table
    ensures r >= 0 ==> table[r] == ch && ch !in table[..r]
  {
    if |table| == 0 then -1
    else if table[0] == ch then 0
    else
      var r := IndexOf(table[1..], ch);
      assert table == [table[0]] + table[1..];
      if r == -1 then -1
      else
        assert table[..r + 1] == [table[0]] + table[1..][..r];
        r + 1
  }

  /** Linear search of the table: the position `GetPMTIndex` returns, found
      by scanning from the front and returning at the first match. */
  method GetPMTIndex(table: seq<int>, ch: int) returns (r: int)
    ensures r == IndexOf(table, ch)
  {
    var ix := 0;
    while ix < |table|
      invariant 0 <= ix <= |table|
      invariant ch !in table[..ix]
    {
      if table[ix] == ch {
        FirstPositionIsUnique(table, ch, ix);
        return ix;
      }
      ix := ix + 1;
    }
    assert table[..ix] == table;
    return -1;
  }

  /** A position holding `ch` with no earlier occurrence is IndexOf's. */
  lemma FirstPositionIsUnique(table: seq<int>, ch: int, ix: int)
    requires 0 <= ix < |table| && table[ix] == ch && ch !in table[..ix]
    ensures IndexOf(table, ch) == ix
  {
  }
}
