/** Shared ownership: use counts of objects referred to by a registry and by holders (synchronous calls, asynchronous
    operations, batch operations). A registry refers to each of its objects a fixed number of times. */
module RefCounts {

  /** The use count of an object; objects without references have no entry. */
  function Uses(uses: map<nat, nat>, o: nat): nat {
    if o in uses then uses[o] else 0
  }

  function Acquire(uses: map<nat, nat>, o: nat, k: nat): map<nat, nat> {
    if k == 0 then uses else uses[o := Uses(uses, o) + k]
  }

  function Release(uses: map<nat, nat>, o: nat, k: nat): map<nat, nat> {
    if Uses(uses, o) <= k then map x | x in uses && x != o :: uses[x] else uses[o := Uses(uses, o) - k]
  }

  /** Every registered object loses the registry's references. */
  function ReleaseAll(uses: map<nat, nat>, registered: set<nat>, weight: nat): map<nat, nat> {
    map x | x in uses && (x in registered ==> uses[x] > weight) :: if x in registered then uses[x] - weight else uses[x]
  }

  lemma ReleaseUses(uses: map<nat, nat>, o: nat, k: nat, x: nat)
    ensures Uses(Release(uses, o, k), x) ==
            if x != o then Uses(uses, x) else if Uses(uses, o) <= k then 0 else Uses(uses, o) - k
  {
  }

  /** Giving a reference back undoes taking it. */
  lemma ReleaseUndoesAcquire(uses: map<nat, nat>, o: nat)
    requires o in uses ==> uses[o] > 0
    ensures Release(Acquire(uses, o, 1), o, 1) == uses
  {
  }

  /** Holders are tokens, each referring to one object. */
  function HoldersOf(holders: map<nat, nat>, o: nat): set<nat> {
    set t | t in holders && holders[t] == o
  }

  function Without(holders: map<nat, nat>, t: nat): map<nat, nat> {
    map x | x in holders && x != t :: holders[x]
  }

  /** Use counts are exact: the registry's share plus one for each holder. */
  ghost predicate Counted(uses: map<nat, nat>, holders: map<nat, nat>, registered: set<nat>, weight: nat) {
    && (forall o :: o in uses ==> uses[o] > 0)
    && (forall o :: Uses(uses, o) == (if o in registered then weight else 0) + |HoldersOf(holders, o)|)
  }

  lemma HolderAdded(holders: map<nat, nat>, t: nat, o: nat, x: nat)
    requires t !in holders
    ensures |HoldersOf(holders[t := o], x)| == |HoldersOf(holders, x)| + (if x == o then 1 else 0)
  {
    if x == o {
      assert HoldersOf(holders[t := o], x) == HoldersOf(holders, x) + {t};
    } else {
      assert HoldersOf(holders[t := o], x) == HoldersOf(holders, x);
    }
  }

  lemma HolderDropped(holders: map<nat, nat>, t: nat, x: nat)
    requires t in holders
    ensures |HoldersOf(Without(holders, t), x)| == |HoldersOf(holders, x)| - (if x == holders[t] then 1 else 0)
  {
    if x == holders[t] {
      assert HoldersOf(Without(holders, t), x) == HoldersOf(holders, x) - {t};
    } else {
      assert HoldersOf(Without(holders, t), x) == HoldersOf(holders, x);
    }
  }

  lemma HoldKeepsCounts(uses: map<nat, nat>, holders: map<nat, nat>, registered: set<nat>, weight: nat, t: nat, o: nat)
    requires Counted(uses, holders, registered, weight) && t !in holders
    ensures Counted(Acquire(uses, o, 1), holders[t := o], registered, weight)
  {
    forall x
      ensures |HoldersOf(holders[t := o], x)| == |HoldersOf(holders, x)| + (if x == o then 1 else 0)
    {
      HolderAdded(holders, t, o, x);
    }
  }

  lemma DropKeepsCounts(uses: map<nat, nat>, holders: map<nat, nat>, registered: set<nat>, weight: nat, t: nat)
    requires Counted(uses, holders, registered, weight) && t in holders
    ensures Counted(Release(uses, holders[t], 1), Without(holders, t), registered, weight)
  {
    forall x
      ensures |HoldersOf(Without(holders, t), x)| == |HoldersOf(holders, x)| - (if x == holders[t] then 1 else 0)
    {
      HolderDropped(holders, t, x);
    }
    assert t in HoldersOf(holders, holders[t]);
  }

  lemma InsertKeepsCounts(uses: map<nat, nat>, holders: map<nat, nat>, registered: set<nat>, weight: nat, o: nat)
    requires Counted(uses, holders, registered, weight) && o !in registered
    ensures Counted(Acquire(uses, o, weight), holders, registered + {o}, weight)
  {
  }

  lemma RemoveKeepsCounts(uses: map<nat, nat>, holders: map<nat, nat>, registered: set<nat>, weight: nat, o: nat)
    requires Counted(uses, holders, registered, weight) && o in registered
    ensures Counted(Release(uses, o, weight), holders, registered - {o}, weight)
  {
  }

  lemma ClearKeepsCounts(uses: map<nat, nat>, holders: map<nat, nat>, registered: set<nat>, weight: nat)
    requires Counted(uses, holders, registered, weight)
    ensures Counted(ReleaseAll(uses, registered, weight), holders, {}, weight)
  {
  }

  /** The use-count test of a deregistration is exactly the absence of holders. */
  lemma UseCountTest(uses: map<nat, nat>, holders: map<nat, nat>, registered: set<nat>, weight: nat, o: nat)
    requires Counted(uses, holders, registered, weight) && o in registered
    ensures Uses(uses, o) <= weight <==> forall t :: t in holders ==> holders[t] != o
  {
    if forall t :: t in holders ==> holders[t] != o {
      assert HoldersOf(holders, o) == {};
    }
    if t :| t in holders && holders[t] == o {
      assert t in HoldersOf(holders, o);
    }
  }

  /** What a holder refers to is alive. */
  lemma HeldIsAlive(uses: map<nat, nat>, holders: map<nat, nat>, registered: set<nat>, weight: nat, t: nat)
    requires Counted(uses, holders, registered, weight) && t in holders
    ensures holders[t] in uses
  {
    assert t in HoldersOf(holders, holders[t]);
  }

  /** Exact counts before and after a holder has left: its object has one use less, every other object as many. */
  lemma LeavingLowersUses(uses: map<nat, nat>, holders: map<nat, nat>, registered: set<nat>, weight: nat, t: nat,
                          uses': map<nat, nat>, holders': map<nat, nat>)
    requires Counted(uses, holders, registered, weight) && Counted(uses', holders', registered, weight)
    requires t in holders && holders' == holders - {t}
    ensures forall x :: Uses(uses', x) == Uses(uses, x) - (if x == holders[t] then 1 else 0)
  {
    assert holders' == Without(holders, t);
    forall x
      ensures Uses(uses', x) == Uses(uses, x) - (if x == holders[t] then 1 else 0)
    {
      HolderDropped(holders, t, x);
    }
  }
}
