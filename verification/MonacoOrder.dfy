/** Change lists in the order the editor reports them: every range described in the text before the
    list, later ranges ending at or before earlier ones start. Applying such a list one change after
    another is one simultaneous substitution. */
module MonacoOrder {
  import opened Unicode
  import opened Edits
  import opened TextEdits

  /** `changes` describes disjoint ranges of `t`, last range first. */
  ghost predicate MonacoBatch(t: Text, changes: seq<Change>) {
    && (forall k | 0 <= k < |changes| :: ChangePlaces(t, changes[k]).Ok?)
    && (forall a, b | 0 <= a < b < |changes| :: changes[b].offset + changes[b].length <= changes[a].offset)
  }

  /** Offsets never rise along the list. */
  predicate OffsetsDescend(changes: seq<Change>) {
    forall a, b | 0 <= a < b < |changes| :: changes[b].offset <= changes[a].offset
  }

  /** Lowest place touched. */
  ghost function Low(t: Text, changes: seq<Change>): (k: nat)
    requires MonacoBatch(t, changes)
    ensures k <= |t|
  {
    if changes == [] then |t| else ChangePlaces(t, changes[|changes| - 1]).value.0
  }

  lemma {:induction false} PrefixIsBatch(t: Text, changes: seq<Change>)
    requires changes != [] && MonacoBatch(t, changes)
    ensures MonacoBatch(t, changes[..|changes| - 1])
    ensures ChangePlaces(t, changes[|changes| - 1]).value.1 <= Low(t, changes[..|changes| - 1])
  {
    var n := |changes| - 1;
    var init := changes[..n];
    var (_, j) := ChangePlaces(t, changes[n]).value;
    if n > 0 {
      assert init[n - 1] == changes[n - 1];
      CoordinatesAgree(t, Low(t, init), j);
    }
  }

  /** Everything after the lowest place: the inserted texts and, between them, the untouched
      stretches of `t`. */
  ghost function Upper(t: Text, changes: seq<Change>): Text
    requires MonacoBatch(t, changes)
  {
    if changes == [] then []
    else
      PrefixIsBatch(t, changes);
      var init, last := changes[..|changes| - 1], changes[|changes| - 1];
      last.text + t[ChangePlaces(t, last).value.1..Low(t, init)] + Upper(t, init)
  }

  /** All ranges of `t` replaced at once: nothing but `t` and the inserted texts is read. */
  ghost function Substitute(t: Text, changes: seq<Change>): Text
    requires MonacoBatch(t, changes)
  {
    t[..Low(t, changes)] + Upper(t, changes)
  }

  /** A change described in `t` is found at the same places in any text that agrees with `t` up to
      the end of its range. */
  lemma {:induction false} LocatesLocally(t: Text, u: Text, c: Change, n: nat)
    requires ChangePlaces(t, c).Ok? && ChangePlaces(t, c).value.1 <= n
    requires n <= |t| && n <= |u| && t[..n] == u[..n]
    ensures ChangePlaces(u, c) == ChangePlaces(t, c)
  {
    var (i, j) := ChangePlaces(t, c).value;
    SamePlace(t, u, i, n);
    SamePlace(t, u, j, n);
  }

  lemma {:induction false} SamePlace(t: Text, u: Text, k: nat, n: nat)
    requires k <= n <= |t| && n <= |u| && t[..n] == u[..n]
    ensures Units(u, k) == Units(t, k) && Bytes(u, k) == Bytes(t, k) && PositionOf(u, k) == PositionOf(t, k)
    ensures OffsetPlace(u, Units(t, k)) == Ok(k) && PositionPlace(u, PositionOf(t, k)) == Ok(k)
    ensures t[..k] == u[..k]
  {
    assert t[..k] == t[..n][..k] == u[..n][..k] == u[..k];
    SamePrefix(t, u, k);
    SamePrefixPosition(t, u, k);
    OffsetPlaceAt(u, k);
    PositionPlaceAt(u, k);
  }

  /** Sequential equals simultaneous, and the gateway's cross-check accepts every change in turn. */
  lemma {:induction false} SequentialIsSimultaneous(t: Text, changes: seq<Change>)
    requires MonacoBatch(t, changes)
    ensures ApplyChanges(t, changes) == Ok(Substitute(t, changes))
  {
    if changes == [] {
      assert t[..|t|] + [] == t;
    } else {
      PrefixIsBatch(t, changes);
      var init, last := changes[..|changes| - 1], changes[|changes| - 1];
      SequentialIsSimultaneous(t, init);
      RunningText(t, init, last);
    }
  }

  /** One more change on the text its predecessors left. */
  lemma {:induction false} RunningText(t: Text, init: seq<Change>, last: Change)
    requires MonacoBatch(t, init) && MonacoBatch(t, init + [last])
    ensures ChangePlaces(Substitute(t, init), last) == ChangePlaces(t, last)
    ensures ApplyChange(Substitute(t, init), last) == Ok(Substitute(t, init + [last]))
  {
    var all, lo := init + [last], Low(t, init);
    assert all[..|all| - 1] == init && all[|all| - 1] == last;
    PrefixIsBatch(t, all);
    var (i, j) := ChangePlaces(t, last).value;
    assert Substitute(t, init)[..lo] == t[..lo];
    LocatesLocally(t, Substitute(t, init), last, lo);
    SpliceBelow(t, i, j, lo, last.text, Upper(t, init));
  }

  lemma {:induction false} SpliceBelow(t: Text, i: nat, j: nat, lo: nat, ins: Text, upper: Text)
    requires i <= j <= lo <= |t|
    ensures Splice(t[..lo] + upper, i, j, ins) == t[..i] + (ins + t[j..lo] + upper)
  {
    assert (t[..lo] + upper)[..i] == t[..i];
    assert (t[..lo] + upper)[j..] == t[j..lo] + upper;
  }

  // ---- Lengths ----

  ghost function InsertedUnits(changes: seq<Change>): nat {
    if changes == [] then 0
    else InsertedUnits(changes[..|changes| - 1]) + Units(changes[|changes| - 1].text, |changes[|changes| - 1].text|)
  }

  ghost function InsertedBytes(changes: seq<Change>): nat {
    if changes == [] then 0
    else InsertedBytes(changes[..|changes| - 1]) + Bytes(changes[|changes| - 1].text, |changes[|changes| - 1].text|)
  }

  function RemovedUnits(changes: seq<Change>): nat {
    if changes == [] then 0 else RemovedUnits(changes[..|changes| - 1]) + changes[|changes| - 1].length
  }

  /** Bytes of `t` under the removed ranges. */
  ghost function RemovedBytes(t: Text, changes: seq<Change>): int
    requires MonacoBatch(t, changes)
  {
    if changes == [] then 0
    else
      PrefixIsBatch(t, changes);
      var (i, j) := ChangePlaces(t, changes[|changes| - 1]).value;
      RemovedBytes(t, changes[..|changes| - 1]) + Bytes(t, j) - Bytes(t, i)
  }

  /** Both lengths move by exactly what was inserted less what was removed. */
  lemma {:induction false} BatchLengths(t: Text, changes: seq<Change>)
    requires MonacoBatch(t, changes)
    ensures var r := Substitute(t, changes);
            && Units(r, |r|) == Units(t, |t|) + InsertedUnits(changes) - RemovedUnits(changes)
            && Bytes(r, |r|) == Bytes(t, |t|) + InsertedBytes(changes) - RemovedBytes(t, changes)
  {
    if changes == [] {
      assert t[..|t|] + [] == t;
    } else {
      PrefixIsBatch(t, changes);
      var init, last := changes[..|changes| - 1], changes[|changes| - 1];
      BatchLengths(t, init);
      assert init + [last] == changes;
      RunningText(t, init, last);
      var u := Substitute(t, init);
      var (i, j) := ChangePlaces(t, last).value;
      SpliceLengths(u, i, j, last.text);
      assert u[..Low(t, init)] == t[..Low(t, init)];
      SamePlace(t, u, i, Low(t, init));
      SamePlace(t, u, j, Low(t, init));
    }
  }
}
