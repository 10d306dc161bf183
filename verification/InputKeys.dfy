/** Held input keys: the peripheral's table of words (src/peripheral_input.c:15-81) and the
    central's tracked table, reconciled against each keepalive (src/central_input.c:63-110,
    src/central_input.c:153-249). */
module InputKeys {
  import opened Common
  import opened Layout
  import opened Keepalive

  // ---- slots with a held flag ----

  datatype Slot = Slot(held: bool, key: HeldKey)

  /** The held keys, in slot order. */
  function HeldList(slots: seq<Slot>): seq<HeldKey> {
    if slots == [] then []
    else
      var last := slots[|slots| - 1];
      HeldList(slots[..|slots| - 1]) + if last.held then [last.key] else []
  }

  function HeldSet(slots: seq<Slot>): (keys: set<HeldKey>)
    ensures forall k :: k in keys <==> exists i :: 0 <= i < |slots| && slots[i] == Slot(true, k)
  {
    set i | 0 <= i < |slots| && slots[i].held :: slots[i].key
  }

  ghost predicate NoDuplicates(slots: seq<Slot>) {
    forall i, j :: 0 <= i < j < |slots| && slots[i].held && slots[j].held ==> slots[i].key != slots[j].key
  }

  lemma {:induction false} HeldListIs(slots: seq<Slot>)
    requires NoDuplicates(slots)
    ensures Distinct(HeldList(slots)) && SetOf(HeldList(slots)) == HeldSet(slots)
  {
    if slots != [] {
      var init, last := slots[..|slots| - 1], slots[|slots| - 1];
      HeldListIs(init);
      assert last.held ==> last.key !in HeldSet(init);
      assert HeldSet(slots) == HeldSet(init) + if last.held then {last.key} else {} by {
        forall k | k in HeldSet(slots)
          ensures k in HeldSet(init) || (last.held && k == last.key)
        {
          var i :| 0 <= i < |slots| && slots[i] == Slot(true, k);
          assert i < |init| ==> init[i] == Slot(true, k);
        }
        forall k | k in HeldSet(init)
          ensures k in HeldSet(slots)
        {
          var i :| 0 <= i < |init| && init[i] == Slot(true, k);
          assert slots[i] == Slot(true, k);
        }
      }
    }
  }

  lemma {:induction false} HeldListLength(slots: seq<Slot>)
    ensures |HeldList(slots)| <= |slots|
    ensures |HeldList(slots)| == |slots| <==> forall i :: 0 <= i < |slots| ==> slots[i].held
  {
    if slots != [] {
      var init := slots[..|slots| - 1];
      HeldListLength(init);
      assert forall i :: 0 <= i < |init| ==> init[i] == slots[i];
    }
  }

  /** A table is full exactly when it holds as many keys as it has slots. */
  lemma {:induction false} FullTable(slots: seq<Slot>)
    requires NoDuplicates(slots)
    ensures |HeldSet(slots)| <= |slots|
    ensures |HeldSet(slots)| == |slots| <==> forall i :: 0 <= i < |slots| ==> slots[i].held
  {
    HeldListIs(slots);
    HeldListLength(slots);
    DistinctSize(HeldList(slots));
  }

  lemma {:induction false} HoldMore(slots: seq<Slot>, i: nat, key: HeldKey)
    requires i < |slots| && !slots[i].held && NoDuplicates(slots) && key !in HeldSet(slots)
    ensures NoDuplicates(slots[i := Slot(true, key)])
    ensures HeldSet(slots[i := Slot(true, key)]) == HeldSet(slots) + {key}
  {
    var slots' := slots[i := Slot(true, key)];
    assert slots'[i] == Slot(true, key);
    forall k
      ensures k in HeldSet(slots') <==> k in HeldSet(slots) || k == key
    {
      if k in HeldSet(slots) {
        var j :| 0 <= j < |slots| && slots[j] == Slot(true, k);
        assert slots'[j] == Slot(true, k);
      }
      if k in HeldSet(slots') {
        var j :| 0 <= j < |slots'| && slots'[j] == Slot(true, k);
        assert j != i ==> slots[j] == Slot(true, k);
      }
    }
    forall a, b | 0 <= a < b < |slots'| && slots'[a].held && slots'[b].held
      ensures slots'[a].key != slots'[b].key
    {
      assert a != i ==> slots[a] == Slot(true, slots'[a].key);
      assert b != i ==> slots[b] == Slot(true, slots'[b].key);
    }
  }

  lemma {:induction false} HoldLess(slots: seq<Slot>, i: nat)
    requires i < |slots| && slots[i].held && NoDuplicates(slots)
    ensures NoDuplicates(slots[i := slots[i].(held := false)])
    ensures HeldSet(slots[i := slots[i].(held := false)]) == HeldSet(slots) - {slots[i].key}
  {
    var slots' := slots[i := slots[i].(held := false)];
    forall k
      ensures k in HeldSet(slots') <==> k in HeldSet(slots) && k != slots[i].key
    {
      if k in HeldSet(slots) && k != slots[i].key {
        var j :| 0 <= j < |slots| && slots[j] == Slot(true, k);
        assert slots'[j] == Slot(true, k);
      }
      if k in HeldSet(slots') {
        var j :| 0 <= j < |slots'| && slots'[j] == Slot(true, k);
        assert j != i && slots[j] == Slot(true, k);
      }
    }
  }

  /** How far a keepalive's presses got: `now` is tracked, `index` keys were looked at. */
  ghost predicate Pressing(was: set<HeldKey>, now: set<HeldKey>, presses: seq<HeldKey>, listed: seq<HeldKey>,
                           index: nat, capacity: nat) {
    && index <= |listed|
    && now == was + SetOf(presses) && SetOf(presses) !! was && Distinct(presses)
    && now <= SetOf(listed)
    && (|now| == capacity || SetOf(listed[..index]) <= now)
  }

  lemma {:induction false} SetOfAppend<T>(s: seq<T>, x: T)
    ensures SetOf(s + [x]) == SetOf(s) + {x}
  {
  }

  lemma {:induction false} PressStep(was: set<HeldKey>, before: set<HeldKey>, now: set<HeldKey>, presses: seq<HeldKey>,
                                     listed: seq<HeldKey>, index: nat, capacity: nat, pressed: bool)
    requires Pressing(was, before, presses, listed, index, capacity) && index < |listed| && |before| <= capacity
    requires pressed <==> listed[index] !in before && |before| < capacity
    requires now == if pressed then before + {listed[index]} else before
    ensures Pressing(was, now, if pressed then presses + [listed[index]] else presses, listed, index + 1, capacity)
  {
    assert listed[..index + 1] == listed[..index] + [listed[index]];
    SetOfAppend(listed[..index], listed[index]);
    SetOfAppend(presses, listed[index]);
    assert listed[index] in SetOf(listed);
  }

  lemma {:induction false} ReconcileSets(was: set<HeldKey>, listed: set<HeldKey>, pressed: set<HeldKey>,
                                         now: set<HeldKey>, capacity: nat)
    requires now == was * listed + pressed && pressed !! was * listed && now <= listed
    requires |now| <= capacity && (now == listed || |now| == capacity)
    ensures pressed == now - was && was * listed <= now
    ensures now == listed <==> |listed| <= capacity
  {
    ProperSubsetSmaller(now, listed);
  }

  // ---- central ----

  class TrackedKeys {
    const slots: array<Slot>

    ghost predicate Valid()
      reads this, slots
    {
      NoDuplicates(slots[..])
    }

    ghost function Tracked(): set<HeldKey>
      reads this, slots
    {
      HeldSet(slots[..])
    }

    constructor (capacity: nat)
      ensures Valid() && fresh(slots) && slots.Length == capacity && Tracked() == {}
    {
      slots := new Slot[capacity](i => Slot(false, HeldKey(0, 0)));
    }

    method Find(key: HeldKey) returns (found: Option<nat>)
      ensures found.Some? <==> key in Tracked()
      ensures found.Some? ==> found.value < slots.Length && slots[found.value] == Slot(true, key)
    {
      for index := 0 to slots.Length
        invariant forall i :: 0 <= i < index ==> slots[i] != Slot(true, key)
      {
        if slots[index].held && slots[index].key == key {
          assert slots[..][index] == Slot(true, key);
          return Some(index);
        }
      }
      found := None;
    }

    method Track(key: HeldKey) returns (ok: bool)
      requires Valid() && key !in Tracked()
      modifies slots
      ensures Valid()
      ensures ok <==> |old(Tracked())| < slots.Length
      ensures Tracked() == if ok then old(Tracked()) + {key} else old(Tracked())
    {
      FullTable(slots[..]);
      for index := 0 to slots.Length
        invariant slots[..] == old(slots[..])
        invariant forall i :: 0 <= i < index ==> slots[i].held
      {
        if !slots[index].held {
          HoldMore(slots[..], index, key);
          slots[index] := Slot(true, key);
          assert slots[..] == old(slots[..])[index := Slot(true, key)];
          return true;
        }
      }
      ok := false;
    }

    method Untrack(key: HeldKey)
      requires Valid()
      modifies slots
      ensures Valid() && Tracked() == old(Tracked()) - {key}
    {
      var found := Find(key);
      if found.Some? {
        HoldLess(slots[..], found.value);
        slots[found.value] := slots[found.value].(held := false);
        assert slots[..] == old(slots[..])[found.value := Slot(false, key)];
      }
    }

    method Reset()
      modifies slots
      ensures Valid() && Tracked() == {}
    {
      for index := 0 to slots.Length
        invariant forall i :: 0 <= i < index ==> !slots[i].held
      {
        slots[index] := slots[index].(held := false);
      }
    }

    /** A live key event; a press of a tracked key is dropped, everything else is forwarded. */
    method DeliverKey(key: HeldKey, pressed: bool) returns (forwarded: bool)
      requires Valid()
      modifies slots
      ensures Valid()
      ensures forwarded <==> !(pressed && key in old(Tracked()))
      ensures Tracked() == if !pressed then old(Tracked()) - {key}
                           else if key in old(Tracked()) || |old(Tracked())| == slots.Length then old(Tracked())
                           else old(Tracked()) + {key}
    {
      FullTable(slots[..]);
      var found := Find(key);
      if pressed && found.Some? {
        return false;
      }
      if !pressed {
        Untrack(key);
      } else {
        var ok := Track(key);
      }
      forwarded := true;
    }

    method ReleaseUnheld(listed: seq<HeldKey>) returns (releases: seq<HeldKey>)
      requires Valid()
      modifies slots
      ensures Valid() && Tracked() == old(Tracked()) * SetOf(listed)
      ensures Distinct(releases) && SetOf(releases) == old(Tracked()) - SetOf(listed)
    {
      releases := [];
      ghost var was := slots[..];
      for index := 0 to slots.Length
        invariant Valid() && Tracked() == old(Tracked()) - SetOf(releases)
        invariant Distinct(releases) && SetOf(releases) <= old(Tracked()) - SetOf(listed)
        invariant forall i :: index <= i < slots.Length ==> slots[i] == was[i]
        invariant forall i :: 0 <= i < index && slots[i].held ==> slots[i].key in listed
      {
        if slots[index].held && slots[index].key !in listed {
          var key := slots[index].key;
          ghost var before := slots[..];
          assert before[index] == Slot(true, key);
          HoldLess(before, index);
          slots[index] := slots[index].(held := false);
          assert slots[..] == before[index := before[index].(held := false)];
          releases := releases + [key];
        }
      }
      forall k | k in Tracked()
        ensures k in listed
      {
        var i :| 0 <= i < |slots[..]| && slots[..][i] == Slot(true, k);
      }
    }

    method PressOne(key: HeldKey) returns (pressed: bool)
      requires Valid()
      modifies slots
      ensures Valid()
      ensures pressed <==> key !in old(Tracked()) && |old(Tracked())| < slots.Length
      ensures Tracked() == if pressed then old(Tracked()) + {key} else old(Tracked())
    {
      var found := Find(key);
      if found.Some? {
        return false;
      }
      pressed := Track(key);
    }

    method PressHeld(listed: seq<HeldKey>) returns (presses: seq<HeldKey>)
      requires Valid() && Tracked() <= SetOf(listed)
      modifies slots
      ensures Valid() && Tracked() == old(Tracked()) + SetOf(presses) && Tracked() <= SetOf(listed)
      ensures Distinct(presses) && SetOf(presses) !! old(Tracked())
      ensures Tracked() == SetOf(listed) || |Tracked()| == slots.Length
    {
      presses := [];
      ghost var was := Tracked();
      assert Pressing(was, Tracked(), presses, listed, 0, slots.Length);
      for index := 0 to |listed|
        invariant Valid()
        invariant Pressing(was, Tracked(), presses, listed, index, slots.Length)
      {
        FullTable(slots[..]);
        ghost var before := Tracked();
        var pressed := PressOne(listed[index]);
        PressStep(was, before, Tracked(), presses, listed, index, slots.Length, pressed);
        if pressed {
          presses := presses + [listed[index]];
        }
      }
      assert listed[..|listed|] == listed;
    }

    /** A keepalive's held keys against the tracked ones: releases first, then presses. */
    method Reconcile(listed: seq<HeldKey>) returns (releases: seq<HeldKey>, presses: seq<HeldKey>)
      requires Valid()
      modifies slots
      ensures Valid()
      ensures Distinct(releases) && SetOf(releases) == old(Tracked()) - SetOf(listed)
      ensures Distinct(presses) && SetOf(presses) == Tracked() - old(Tracked())
      ensures old(Tracked()) * SetOf(listed) <= Tracked() <= SetOf(listed)
      ensures Tracked() == SetOf(listed) <==> |SetOf(listed)| <= slots.Length
    {
      releases := ReleaseUnheld(listed);
      presses := PressHeld(listed);
      FullTable(slots[..]);
      ReconcileSets(old(Tracked()), SetOf(listed), SetOf(presses), Tracked(), slots.Length);
    }
  }

  // ---- peripheral ----

  const HELD_ENTRY_VALID: nat := 0x100_0000

  /** One word per key, never 0. */
  function Pack(key: HeldKey): (entry: nat)
    ensures entry != 0
  {
    HELD_ENTRY_VALID + key.reg as nat * 0x1_0000 + key.code as nat
  }

  function Unpack(entry: nat): HeldKey {
    HeldKey((entry / 0x1_0000 % 256) as Byte, (entry % 0x1_0000) as U16)
  }

  lemma {:induction false} UnpackOfPack(key: HeldKey)
    ensures Unpack(Pack(key)) == key
  {
    assert Pack(key) / 0x1_0000 == 256 + key.reg as nat;
  }

  ghost predicate EntriesValid(words: seq<nat>) {
    && (forall i :: 0 <= i < |words| && words[i] != 0 ==> words[i] == Pack(Unpack(words[i])))
    && (forall i, j :: 0 <= i < j < |words| && words[i] != 0 ==> words[i] != words[j])
  }

  function WordKeys(words: seq<nat>): (keys: set<HeldKey>)
    ensures forall k :: k in keys <==> exists i :: 0 <= i < |words| && words[i] != 0 && Unpack(words[i]) == k
  {
    set i | 0 <= i < |words| && words[i] != 0 :: Unpack(words[i])
  }

  function WordList(words: seq<nat>): seq<HeldKey> {
    if words == [] then []
    else
      var last := words[|words| - 1];
      WordList(words[..|words| - 1]) + if last != 0 then [Unpack(last)] else []
  }

  lemma {:induction false} WordKeysMore(init: seq<nat>, last: nat)
    ensures WordKeys(init + [last]) == WordKeys(init) + if last != 0 then {Unpack(last)} else {}
  {
    var words := init + [last];
    forall k | k in WordKeys(words)
      ensures k in WordKeys(init) || (last != 0 && k == Unpack(last))
    {
      var i :| 0 <= i < |words| && words[i] != 0 && Unpack(words[i]) == k;
      assert i < |init| ==> init[i] == words[i];
    }
    forall k | k in WordKeys(init)
      ensures k in WordKeys(words)
    {
      var i :| 0 <= i < |init| && init[i] != 0 && Unpack(init[i]) == k;
      assert words[i] == init[i];
    }
    assert last != 0 ==> words[|init|] == last;
  }

  lemma {:induction false} WordListIs(words: seq<nat>)
    requires EntriesValid(words)
    ensures Distinct(WordList(words)) && SetOf(WordList(words)) == WordKeys(words) && |WordList(words)| <= |words|
  {
    if words != [] {
      var init, last := words[..|words| - 1], words[|words| - 1];
      WordListIs(init);
      WordKeysMore(init, last);
      assert words == init + [last];
      forall i | 0 <= i < |init| && init[i] != 0
        ensures last != 0 ==> Unpack(init[i]) != Unpack(last)
      {
        assert words[i] == init[i] && words[|init|] == last;
      }
    }
  }

  lemma {:induction false} WordsChange(words: seq<nat>, i: nat, entry: nat)
    requires i < |words| && EntriesValid(words)
    requires entry == 0 || (words[i] == 0 && entry == Pack(Unpack(entry)) && entry !in words)
    ensures EntriesValid(words[i := entry])
    ensures WordKeys(words[i := entry])
         == if entry != 0 then WordKeys(words) + {Unpack(entry)}
            else if words[i] != 0 then WordKeys(words) - {Unpack(words[i])}
            else WordKeys(words)
  {
    var words' := words[i := entry];
    forall k
      ensures k in WordKeys(words') <==>
                if entry != 0 then k in WordKeys(words) || k == Unpack(entry)
                else k in WordKeys(words) && (words[i] != 0 ==> k != Unpack(words[i]))
    {
      if k in WordKeys(words) {
        var j :| 0 <= j < |words| && words[j] != 0 && Unpack(words[j]) == k;
        assert j != i ==> words'[j] == words[j];
      }
      if k in WordKeys(words') {
        var j :| 0 <= j < |words'| && words'[j] != 0 && Unpack(words'[j]) == k;
        assert j != i ==> words'[j] == words[j];
      }
      assert words'[i] == entry;
    }
  }

  class HeldTable {
    const words: array<nat>

    ghost predicate Valid()
      reads this, words
    {
      EntriesValid(words[..])
    }

    ghost function Held(): set<HeldKey>
      reads this, words
    {
      WordKeys(words[..])
    }

    constructor (capacity: nat)
      ensures Valid() && fresh(words) && words.Length == capacity && Held() == {}
    {
      words := new nat[capacity](i => 0);
    }

    method Add(key: HeldKey)
      requires Valid()
      modifies words
      ensures Valid()
      ensures Held() == if old(exists i :: 0 <= i < words.Length && words[i] == 0)
                        then old(Held()) + {key} else old(Held())
    {
      UnpackOfPack(key);
      var entry := Pack(key);
      for index := 0 to words.Length
        invariant words[..] == old(words[..])
        invariant forall i :: 0 <= i < index ==> words[i] != entry
      {
        if words[index] == entry {
          assert words[..][index] == entry;
          return;
        }
      }
      for index := 0 to words.Length
        invariant words[..] == old(words[..])
        invariant forall i :: 0 <= i < index ==> words[i] != 0
      {
        if words[index] == 0 {
          WordsChange(words[..], index, entry);
          words[index] := entry;
          assert words[..] == old(words[..])[index := entry];
          return;
        }
      }
    }

    method Remove(key: HeldKey)
      requires Valid()
      modifies words
      ensures Valid() && Held() == old(Held()) - {key}
    {
      UnpackOfPack(key);
      var entry := Pack(key);
      for index := 0 to words.Length
        invariant words[..] == old(words[..])
        invariant forall i :: 0 <= i < index ==> words[i] != entry
      {
        if words[index] == entry {
          WordsChange(words[..], index, 0);
          words[index] := 0;
          assert words[..] == old(words[..])[index := 0];
          return;
        }
      }
      forall i | 0 <= i < words.Length && words[i] != 0
        ensures Unpack(words[i]) != key
      {
        assert words[..][i] == words[i] && words[i] == Pack(Unpack(words[i]));
      }
    }

    /** What the keepalive lists: every held key, once. */
    method HeldKeys() returns (listed: seq<HeldKey>)
      requires Valid()
      ensures Distinct(listed) && SetOf(listed) == Held() && |listed| <= words.Length
    {
      listed := [];
      for index := 0 to words.Length
        invariant listed == WordList(words[..index])
      {
        assert words[..index + 1][..index] == words[..index];
        if words[index] != 0 {
          listed := listed + [Unpack(words[index])];
        }
      }
      assert words[..words.Length] == words[..];
      WordListIs(words[..]);
    }
  }

  /** A keepalive that arrives makes the central's set the peripheral's, whatever was lost. */
  method Synchronise(peripheral: HeldTable, central: TrackedKeys)
    returns (releases: seq<HeldKey>, presses: seq<HeldKey>)
    requires peripheral.Valid() && central.Valid() && peripheral.words.Length <= central.slots.Length
    modifies central.slots
    ensures central.Valid() && central.Tracked() == old(peripheral.Held())
    ensures Distinct(releases) && SetOf(releases) == old(central.Tracked()) - old(peripheral.Held())
    ensures Distinct(presses) && SetOf(presses) == old(peripheral.Held()) - old(central.Tracked())
  {
    var listed := peripheral.HeldKeys();
    DistinctSize(listed);
    releases, presses := central.Reconcile(listed);
  }
}
