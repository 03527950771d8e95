/** The live drops of the play area: their kinds, the score each kind is
    worth when clicked, the eviction `createDrop` performs when the cap is
    reached, the batch of new drops it appends, and the removal of one drop
    by its click or animation-end handler. */
module Drops {

  datatype Kind = Good | Bad | Bomb

  /** One `.water-drop` element. `id` stands for the element's identity:
      elements are numbered in the order `createDrop` creates them. */
  datatype Drop = Drop(id: nat, kind: Kind)

  /** `maxDrops` in `createDrop`. */
  const MaxDrops: nat := 15

  /** Eviction leaves `MaxDrops - 1` drops and a spawn appends at most three,
      so no more drops than this are ever live at once. */
  const MaxLiveDrops: nat := MaxDrops + 2

  /** Score change for clicking a drop of kind `k`. */
  function ClickDelta(k: Kind): (d: int)
    ensures d > 0 <==> k == Good
    ensures k == Good ==> d == 1
    ensures k == Bad ==> d == -1
    ensures k == Bomb ==> d == -5
  {
    match k
    case Good => 1
    case Bad => -1
    case Bomb => -5
  }

  /** Drops are listed in document order, which is creation order. */
  ghost predicate InCreationOrder(live: seq<Drop>)
  {
    forall i, j :: 0 <= i < j < |live| ==> live[i].id < live[j].id
  }

  /** Every live drop was created before identity `next` was handed out. */
  ghost predicate IdsBelow(live: seq<Drop>, next: nat)
  {
    forall i :: 0 <= i < |live| ==> live[i].id < next
  }

  /** Number of drops the eviction loop removes: `allDrops.length - maxDrops + 1`
      iterations when `allDrops.length >= maxDrops`, none otherwise. */
  function EvictCount(n: nat): (k: nat)
    ensures k <= n
    ensures n >= MaxDrops ==> n - k == MaxDrops - 1
    ensures n < MaxDrops ==> k == 0
  {
    if n >= MaxDrops then n - MaxDrops + 1 else 0
  }

  /** The live drops after eviction: the oldest ones are gone and the rest
      keep their order. */
  function Evict(live: seq<Drop>): (kept: seq<Drop>)
    ensures |kept| < MaxDrops
    ensures |live| < MaxDrops ==> kept == live
    ensures |live| >= MaxDrops ==> |kept| == MaxDrops - 1
    ensures kept == live[|live| - |kept|..]
  {
    live[EvictCount(|live|)..]
  }

  /** The drops one `createDrop` call appends: a good drop, a bad drop and,
      when the random draw passes, a bomb. The three elements are created
      with consecutive identities starting at `first` whether or not the
      bomb is appended. */
  function NewDrops(first: nat, bomb: bool): (batch: seq<Drop>)
    ensures |batch| == if bomb then 3 else 2
    ensures batch[0].kind == Good && batch[1].kind == Bad
    ensures bomb ==> batch[2].kind == Bomb
    ensures forall i :: 0 <= i < |batch| ==> batch[i].id == first + i
  {
    [Drop(first, Good), Drop(first + 1, Bad)] + if bomb then [Drop(first + 2, Bomb)] else []
  }

  /** The live drops after `createDrop`. */
  function Spawned(live: seq<Drop>, first: nat, bomb: bool): seq<Drop>
  {
    Evict(live) + NewDrops(first, bomb)
  }

  /** The live drops after the element at position `i` removes itself. */
  function RemoveAt(live: seq<Drop>, i: nat): seq<Drop>
    requires i < |live|
  {
    live[..i] + live[i + 1..]
  }

  /** A spawn leaves at most `MaxLiveDrops` drops and keeps the survivors
      of eviction, in order, ahead of the new batch. */
  lemma SpawnedShape(live: seq<Drop>, first: nat, bomb: bool)
    ensures |Spawned(live, first, bomb)| <= MaxLiveDrops
    ensures Spawned(live, first, bomb)[..|Evict(live)|] == live[EvictCount(|live|)..]
    ensures Spawned(live, first, bomb)[|Evict(live)|..] == NewDrops(first, bomb)
  {
    var kept, batch := Evict(live), NewDrops(first, bomb);
    assert (kept + batch)[..|kept|] == kept;
    assert (kept + batch)[|kept|..] == batch;
  }

  /** A suffix of a list in creation order is in creation order. */
  lemma SuffixInOrder(live: seq<Drop>, k: nat, next: nat)
    requires k <= |live| && InCreationOrder(live) && IdsBelow(live, next)
    ensures InCreationOrder(live[k..]) && IdsBelow(live[k..], next)
  {
    var s := live[k..];
    forall i, j | 0 <= i < j < |s| ensures s[i].id < s[j].id {
      assert s[i] == live[k + i] && s[j] == live[k + j];
    }
    forall i | 0 <= i < |s| ensures s[i].id < next {
      assert s[i] == live[k + i];
    }
  }

  /** Appending a batch with fresh identities keeps creation order. */
  lemma AppendBatchInOrder(kept: seq<Drop>, first: nat, bomb: bool)
    requires InCreationOrder(kept) && IdsBelow(kept, first)
    ensures InCreationOrder(kept + NewDrops(first, bomb))
    ensures IdsBelow(kept + NewDrops(first, bomb), first + 3)
  {
    var batch := NewDrops(first, bomb);
    var s := kept + batch;
    forall i, j | 0 <= i < j < |s| ensures s[i].id < s[j].id {
      if j < |kept| {
        assert s[i] == kept[i] && s[j] == kept[j];
      } else if i < |kept| {
        assert s[i] == kept[i] && s[j] == batch[j - |kept|];
      } else {
        assert s[i] == batch[i - |kept|] && s[j] == batch[j - |kept|];
      }
    }
    forall i | 0 <= i < |s| ensures s[i].id < first + 3 {
      if i < |kept| {
        assert s[i] == kept[i];
      } else {
        assert s[i] == batch[i - |kept|];
      }
    }
  }

  /** A spawn whose new identities are fresh keeps the list in creation
      order and every identity below the advanced counter. */
  lemma SpawnedInOrder(live: seq<Drop>, first: nat, bomb: bool)
    requires InCreationOrder(live) && IdsBelow(live, first)
    ensures InCreationOrder(Spawned(live, first, bomb))
    ensures IdsBelow(Spawned(live, first, bomb), first + 3)
  {
    SuffixInOrder(live, EvictCount(|live|), first);
    AppendBatchInOrder(Evict(live), first, bomb);
  }

  /** Removing position `i` removes exactly that drop: the others stay, in
      their order. */
  lemma RemoveAtExactlyOne(live: seq<Drop>, i: nat)
    requires i < |live|
    ensures multiset(RemoveAt(live, i)) + multiset{live[i]} == multiset(live)
    ensures |RemoveAt(live, i)| == |live| - 1
    ensures forall j :: 0 <= j < i ==> RemoveAt(live, i)[j] == live[j]
    ensures forall j :: i <= j < |live| - 1 ==> RemoveAt(live, i)[j] == live[j + 1]
  {
    assert live == live[..i] + [live[i]] + live[i + 1..];
  }

  /** In a list in creation order no other drop shares the removed drop's
      identity, so it is gone afterwards, and the rest stay in order. */
  lemma RemoveAtInOrder(live: seq<Drop>, i: nat)
    requires i < |live| && InCreationOrder(live)
    ensures InCreationOrder(RemoveAt(live, i))
    ensures forall j :: 0 <= j < |live| - 1 ==> RemoveAt(live, i)[j].id != live[i].id
  {
    var r := RemoveAt(live, i);
    forall a, b | 0 <= a < b < |r| ensures r[a].id < r[b].id {
      var a', b' := if a < i then a else a + 1, if b < i then b else b + 1;
      assert r[a] == live[a'] && r[b] == live[b'];
    }
    forall j | 0 <= j < |r| ensures r[j].id != live[i].id {
      var j' := if j < i then j else j + 1;
      assert r[j] == live[j'];
    }
  }

  /** Removal keeps every surviving identity below the counter. */
  lemma RemoveAtIdsBelow(live: seq<Drop>, i: nat, next: nat)
    requires i < |live| && IdsBelow(live, next)
    ensures IdsBelow(RemoveAt(live, i), next)
  {
    var r := RemoveAt(live, i);
    forall j | 0 <= j < |r| ensures r[j].id < next {
      assert r[j] == live[if j < i then j else j + 1];
    }
  }
}
