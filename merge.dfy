/**
 * The season-pack merge at the end of `main`: the incoming packs are merged
 * into the stored chart's `seasonPack` list by `packName`. A pack whose name
 * is already present is overwritten in place by the object spread
 * `{ ...stored, ...incoming }`; a pack with a new name is appended. Without a
 * stored chart the incoming list is taken as it is.
 */
module PackMerge {
  import opened Records

  /** Some pack in `packs` is named `name`. */
  predicate HasName(packs: seq<Pack>, name: string) {
    exists k :: 0 <= k < |packs| && packs[k].packName == name
  }

  /** No two packs share a name. */
  predicate UniqueNames(packs: seq<Pack>) {
    forall i, j :: 0 <= i < j < |packs| ==> packs[i].packName != packs[j].packName
  }

  /** Position `k` holds the first pack of its name. */
  predicate FirstOfName(packs: seq<Pack>, k: nat)
    requires k < |packs|
  {
    forall j :: 0 <= j < k ==> packs[j].packName != packs[k].packName
  }

  /** `packs.findIndex(pack => pack.packName === name)`. */
  function FindIndex(packs: seq<Pack>, name: string): (i: int)
    ensures -1 <= i < |packs|
    ensures i == -1 <==> !HasName(packs, name)
    ensures i >= 0 ==> packs[i].packName == name
    ensures i >= 0 ==> forall j :: 0 <= j < i ==> packs[j].packName != name
  {
    if packs == [] then -1
    else if packs[0].packName == name then 0
    else
      var rest := FindIndex(packs[1..], name);
      assert forall k :: 1 <= k < |packs| ==> packs[k] == packs[1..][k - 1];
      if rest == -1 then -1 else rest + 1
  }

  /**
   * `{ ...stored, ...incoming }` for two packs of the same name: every field
   * of the incoming pack, and every field of the stored pack the incoming one
   * does not carry.
   */
  function Spread(stored: Pack, incoming: Pack): (p: Pack)
    ensures p.packName == incoming.packName
    ensures p.fields.Keys == stored.fields.Keys + incoming.fields.Keys
    ensures forall f :: f in incoming.fields ==> p.fields[f] == incoming.fields[f]
    ensures forall f :: f in stored.fields && f !in incoming.fields ==> p.fields[f] == stored.fields[f]
  {
    Pack(incoming.packName, stored.fields + incoming.fields)
  }

  /**
   * One pass of the merge loop: the first pack of the incoming name is
   * overwritten by the spread and nothing else moves, or, when the name is
   * new, the incoming pack is appended.
   */
  function MergeOne(packs: seq<Pack>, incoming: Pack): (r: seq<Pack>)
    ensures |packs| <= |r| <= |packs| + 1
    ensures HasName(r, incoming.packName)
    ensures forall k :: 0 <= k < |packs| ==> r[k].packName == packs[k].packName
    ensures !HasName(packs, incoming.packName) ==> r == packs + [incoming]
    ensures HasName(packs, incoming.packName) ==> |r| == |packs|
    ensures HasName(packs, incoming.packName) ==>
      var i := FindIndex(packs, incoming.packName); r[i] == Spread(packs[i], incoming)
    ensures forall k :: 0 <= k < |packs| && k != FindIndex(packs, incoming.packName) ==> r[k] == packs[k]
  {
    var index := FindIndex(packs, incoming.packName);
    if index > -1 then
      var r := packs[index := Spread(packs[index], incoming)];
      assert r[index].packName == incoming.packName;
      r
    else
      var r := packs + [incoming];
      assert r[|packs|] == incoming;
      r
  }

  /** The merge loop run over a list of incoming packs, in order. */
  function MergeAll(packs: seq<Pack>, incoming: seq<Pack>): seq<Pack>
    decreases |incoming|
  {
    if incoming == [] then packs
    else MergeOne(MergeAll(packs, incoming[..|incoming| - 1]), incoming[|incoming| - 1])
  }

  /**
   * The merged `seasonPack` list: the stored list (if the chart exists) with
   * every incoming pack merged in, or the incoming list when it does not.
   */
  method MergeSeasonPacks(doc: Option<seq<Pack>>, incomingPacks: seq<Pack>)
    returns (merged: seq<Pack>)
    ensures merged == if doc.Some? then MergeAll(doc.value, incomingPacks) else incomingPacks
  {
    if doc.Some? {
      merged := doc.value;
      for k := 0 to |incomingPacks|
        invariant merged == MergeAll(doc.value, incomingPacks[..k])
      {
        var incoming := incomingPacks[k];
        var index := FindIndex(merged, incoming.packName);
        if index > -1 {
          merged := merged[index := Spread(merged[index], incoming)];
        } else {
          merged := merged + [incoming];
        }
        assert incomingPacks[..k + 1][..k] == incomingPacks[..k];
      }
      assert incomingPacks[..|incomingPacks|] == incomingPacks;
    } else {
      merged := incomingPacks;
    }
  }

  /**
   * The reference meaning of the merge for one stored pack: every incoming
   * pack of its name, in order, spread over it.
   */
  function FoldSpread(p: Pack, incoming: seq<Pack>): (q: Pack)
    ensures q.packName == p.packName
    decreases |incoming|
  {
    if incoming == [] then p
    else
      var q := FoldSpread(p, incoming[..|incoming| - 1]);
      var last := incoming[|incoming| - 1];
      if last.packName == p.packName then Spread(q, last) else q
  }

  /** The incoming packs whose names the stored list does not have, in incoming order. */
  function Unseen(stored: seq<Pack>, incoming: seq<Pack>): (r: seq<Pack>)
    ensures |r| <= |incoming|
    ensures forall k :: 0 <= k < |r| ==> !HasName(stored, r[k].packName) && HasName(incoming, r[k].packName)
    decreases |incoming|
  {
    if incoming == [] then []
    else
      var init := incoming[..|incoming| - 1];
      var last := incoming[|incoming| - 1];
      var rest := Unseen(stored, init);
      assert forall k :: 0 <= k < |rest| ==> HasName(incoming, rest[k].packName) by {
        forall k | 0 <= k < |rest|
          ensures HasName(incoming, rest[k].packName)
        {
          var j :| 0 <= j < |init| && init[j].packName == rest[k].packName;
          assert incoming[j] == init[j];
        }
      }
      if HasName(stored, last.packName) then rest
      else
        assert incoming[|incoming| - 1] == last;
        rest + [last]
  }

  /** The merge never moves, renames or drops a stored pack. */
  lemma {:induction false} MergeAllKeepsStored(stored: seq<Pack>, incoming: seq<Pack>)
    ensures |MergeAll(stored, incoming)| >= |stored|
    ensures forall k :: 0 <= k < |stored| ==> MergeAll(stored, incoming)[k].packName == stored[k].packName
    decreases |incoming|
  {
    if incoming != [] {
      MergeAllKeepsStored(stored, incoming[..|incoming| - 1]);
    }
  }

  /** A name the stored list has is found among the stored positions, at its first one. */
  lemma FindStoredName(stored: seq<Pack>, merged: seq<Pack>, k: nat)
    requires k < |stored| <= |merged| && FirstOfName(stored, k)
    requires forall i :: 0 <= i < |stored| ==> merged[i].packName == stored[i].packName
    ensures FindIndex(merged, stored[k].packName) == k
  {
    var i := FindIndex(merged, stored[k].packName);
    assert merged[k].packName == stored[k].packName;
    assert HasName(merged, stored[k].packName);
  }

  /**
   * Each stored pack ends up as every incoming pack of its name spread over
   * it, in order, when it is the first pack of that name; a later duplicate
   * is never found by `findIndex` and is left as it was.
   */
  lemma {:induction false} MergeAllAt(stored: seq<Pack>, incoming: seq<Pack>, k: nat)
    requires k < |stored|
    ensures k < |MergeAll(stored, incoming)|
    ensures MergeAll(stored, incoming)[k]
         == if FirstOfName(stored, k) then FoldSpread(stored[k], incoming) else stored[k]
    decreases |incoming|
  {
    MergeAllKeepsStored(stored, incoming);
    if incoming != [] {
      var init := incoming[..|incoming| - 1];
      var last := incoming[|incoming| - 1];
      var m := MergeAll(stored, init);
      MergeAllAt(stored, init, k);
      MergeAllKeepsStored(stored, init);
      var i := FindIndex(m, last.packName);
      if FirstOfName(stored, k) && last.packName == stored[k].packName {
        FindStoredName(stored, m, k);
      }
    }
  }

  /** A stored pack that no incoming pack names comes through unchanged and at its index. */
  lemma UntouchedPackUnchanged(stored: seq<Pack>, incoming: seq<Pack>, k: nat)
    requires k < |stored|
    requires !HasName(incoming, stored[k].packName)
    ensures k < |MergeAll(stored, incoming)|
    ensures MergeAll(stored, incoming)[k] == stored[k]
  {
    MergeAllAt(stored, incoming, k);
    FoldSpreadUntouched(stored[k], incoming);
  }

  lemma {:induction false} FoldSpreadUntouched(p: Pack, incoming: seq<Pack>)
    requires !HasName(incoming, p.packName)
    ensures FoldSpread(p, incoming) == p
    decreases |incoming|
  {
    if incoming != [] {
      var init := incoming[..|incoming| - 1];
      assert !HasName(init, p.packName) by {
        forall j | 0 <= j < |init| ensures init[j].packName != p.packName {
          assert init[j] == incoming[j];
        }
      }
      FoldSpreadUntouched(p, init);
      assert incoming[|incoming| - 1].packName != p.packName;
    }
  }

  /**
   * With distinct incoming names, what follows the stored packs is exactly
   * the incoming packs with new names, in incoming order; so the merged list
   * is as long as the stored one plus the number of new names.
   */
  lemma {:induction false} MergeAllAppendsUnseen(stored: seq<Pack>, incoming: seq<Pack>)
    requires UniqueNames(incoming)
    ensures |MergeAll(stored, incoming)| == |stored| + |Unseen(stored, incoming)|
    ensures MergeAll(stored, incoming)[|stored|..] == Unseen(stored, incoming)
    decreases |incoming|
  {
    if incoming != [] {
      var init := incoming[..|incoming| - 1];
      var last := incoming[|incoming| - 1];
      assert UniqueNames(init) by {
        forall i, j | 0 <= i < j < |init| ensures init[i].packName != init[j].packName {
          assert init[i] == incoming[i] && init[j] == incoming[j];
        }
      }
      MergeAllAppendsUnseen(stored, init);
      MergeAllKeepsStored(stored, init);
      var m := MergeAll(stored, init);
      var tail := Unseen(stored, init);
      if HasName(stored, last.packName) {
        MergeOneStoredName(stored, m, last);
      } else {
        assert forall k :: 0 <= k < |tail| ==> tail[k].packName != last.packName by {
          forall k | 0 <= k < |tail| ensures tail[k].packName != last.packName {
            var j :| 0 <= j < |init| && init[j].packName == tail[k].packName;
            assert init[j] == incoming[j];
          }
        }
        MergeOneNewName(stored, m, last, tail);
      }
    }
  }

  /** An incoming pack with a stored name changes nothing after the stored packs. */
  lemma MergeOneStoredName(stored: seq<Pack>, m: seq<Pack>, last: Pack)
    requires |m| >= |stored|
    requires forall k :: 0 <= k < |stored| ==> m[k].packName == stored[k].packName
    requires HasName(stored, last.packName)
    ensures |MergeOne(m, last)| == |m|
    ensures MergeOne(m, last)[|stored|..] == m[|stored|..]
  {
    var s :| 0 <= s < |stored| && stored[s].packName == last.packName;
    assert m[s].packName == last.packName;
  }

  /** An incoming pack with a name found nowhere is appended. */
  lemma MergeOneNewName(stored: seq<Pack>, m: seq<Pack>, last: Pack, tail: seq<Pack>)
    requires |m| >= |stored| && m[|stored|..] == tail
    requires forall k :: 0 <= k < |stored| ==> m[k].packName == stored[k].packName
    requires !HasName(stored, last.packName)
    requires forall k :: 0 <= k < |tail| ==> tail[k].packName != last.packName
    ensures MergeOne(m, last) == m + [last]
    ensures (m + [last])[|stored|..] == tail + [last]
  {
    assert forall k :: |stored| <= k < |m| ==> m[k] == tail[k - |stored|];
    assert !HasName(m, last.packName);
  }

  /** Merging keeps names distinct: a new name is only ever appended. */
  lemma {:induction false} MergeAllKeepsUniqueNames(stored: seq<Pack>, incoming: seq<Pack>)
    requires UniqueNames(stored)
    ensures UniqueNames(MergeAll(stored, incoming))
    decreases |incoming|
  {
    if incoming != [] {
      var init := incoming[..|incoming| - 1];
      var last := incoming[|incoming| - 1];
      MergeAllKeepsUniqueNames(stored, init);
      var m := MergeAll(stored, init);
      var i := FindIndex(m, last.packName);
      if i == -1 {
        assert forall j :: 0 <= j < |m| ==> m[j].packName != last.packName;
      }
    }
  }

  /**
   * A single incoming pack whose name a stored pack has overwrites that pack
   * at its index: incoming fields win, the stored pack's other fields stay.
   */
  lemma MatchingPackOverwritten(stored: seq<Pack>, incoming: Pack, k: nat)
    requires k < |stored| && UniqueNames(stored)
    requires stored[k].packName == incoming.packName
    ensures |MergeAll(stored, [incoming])| == |stored|
    ensures MergeAll(stored, [incoming])[k] == Spread(stored[k], incoming)
  {
    assert [incoming][..0] == [];
    FindStoredName(stored, stored, k);
  }
}
