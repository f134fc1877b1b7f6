// The action/listener hub of src/wgleng/core/Actions.h: a fixed number of
// actions, each with an enabled flag, an id counter and a list of
// (id, callback) listeners; `Listener` handles point at one action's list
// and remove their entry by swap-and-pop when closed.  Callbacks are opaque
// tokens and `Trigger` returns the ones it calls, in order.

module Actions {
  import opened Common

  /** A `std::function<void()>`, known only by identity. */
  type Callback = nat

  /** One `std::pair<uint64_t, Callback>` of a listener list. */
  datatype Entry = Entry(id: nat, callback: Callback)

  /** The callbacks of a listener list, in list order. */
  function Callbacks(ls: seq<Entry>): (r: seq<Callback>)
    ensures |r| == |ls| && forall k :: 0 <= k < |ls| ==> r[k] == ls[k].callback
  {
    if ls == [] then [] else Callbacks(ls[..|ls| - 1]) + [ls[|ls| - 1].callback]
  }

  /** The ids of a listener list, as a set. */
  function Ids(ls: seq<Entry>): set<nat>
  {
    set k | 0 <= k < |ls| :: ls[k].id
  }

  /** No two entries share an id. */
  predicate DistinctIds(ls: seq<Entry>)
  {
    forall j, k :: 0 <= j < k < |ls| ==> ls[j].id != ls[k].id
  }

  /** The first position holding the id, if any. */
  function FindId(ls: seq<Entry>, id: nat): (r: Option<nat>)
    ensures r.Some? ==> r.value < |ls| && ls[r.value].id == id && forall j :: 0 <= j < r.value ==> ls[j].id != id
    ensures r.None? ==> forall j :: 0 <= j < |ls| ==> ls[j].id != id
  {
    if ls == [] then None
    else
      var r := FindId(ls[..|ls| - 1], id);
      if r.Some? then r else if ls[|ls| - 1].id == id then Some(|ls| - 1) else None
  }

  /** `std::swap(ls[i], ls.back()); ls.pop_back();` */
  function SwapPop(ls: seq<Entry>, i: nat): (r: seq<Entry>)
    requires i < |ls|
    ensures |r| == |ls| - 1
  {
    ls[i := ls[|ls| - 1]][..|ls| - 1]
  }

  /** The listener list after closing the listener with this id. */
  function Closed(ls: seq<Entry>, id: nat): seq<Entry>
  {
    var f := FindId(ls, id);
    if f.Some? then SwapPop(ls, f.value) else ls
  }

  /** Swap-and-pop removes exactly the entry at i, as a multiset. */
  lemma SwapPopMultiset(ls: seq<Entry>, i: nat)
    requires i < |ls|
    ensures multiset(SwapPop(ls, i)) == multiset(ls) - multiset{ls[i]}
  {
    var n := |ls| - 1;
    if i == n {
      assert ls[i := ls[n]] == ls;
      assert ls == ls[..n] + [ls[n]];
    } else {
      var pre, mid := ls[..i], ls[i + 1..n];
      assert ls == pre + [ls[i]] + mid + [ls[n]];
      assert SwapPop(ls, i) == pre + [ls[n]] + mid;
    }
  }

  /**
   * With distinct ids, closing keeps exactly the entries with other ids, each
   * once, and the ids stay distinct; closing an id that is absent changes nothing.
   */
  lemma ClosedRemovesExactly(ls: seq<Entry>, id: nat)
    requires DistinctIds(ls)
    ensures FindId(ls, id).Some? ==> multiset(Closed(ls, id)) == multiset(ls) - multiset{ls[FindId(ls, id).value]}
    ensures forall e :: e in Closed(ls, id) <==> e in ls && e.id != id
    ensures DistinctIds(Closed(ls, id))
    ensures id !in Ids(ls) ==> Closed(ls, id) == ls
  {
    var f := FindId(ls, id);
    if f.Some? {
      var i := f.value;
      SwapPopMultiset(ls, i);
      var r := SwapPop(ls, i);
      forall e ensures e in r <==> e in ls && e.id != id {
        calc {
          e in r;
          e in multiset(r);
          e in multiset(ls) - multiset{ls[i]};
        }
        if e in ls && e.id != id {
          assert e != ls[i];
        }
        if e in ls && e.id == id {
          var j :| 0 <= j < |ls| && ls[j] == e;
          assert j == i;
          assert multiset(ls)[e] == 1 by { DistinctOnce(ls, j); }
        }
      }
      SwapPopDistinct(ls, i);
    }
  }

  lemma DistinctOnce(ls: seq<Entry>, j: nat)
    requires DistinctIds(ls) && j < |ls|
    ensures multiset(ls)[ls[j]] == 1
  {
    var pre, post := ls[..j], ls[j + 1..];
    assert ls == pre + [ls[j]] + post;
    forall a | 0 <= a < |pre| ensures pre[a] != ls[j] {
      assert pre[a] == ls[a];
    }
    forall a | 0 <= a < |post| ensures post[a] != ls[j] {
      assert post[a] == ls[j + 1 + a];
    }
  }

  lemma SwapPopDistinct(ls: seq<Entry>, i: nat)
    requires DistinctIds(ls) && i < |ls|
    ensures DistinctIds(SwapPop(ls, i))
  {
    var r := SwapPop(ls, i);
    var n := |ls| - 1;
    forall j, k | 0 <= j < k < |r| ensures r[j].id != r[k].id {
      var j' := if j == i then n else j;
      var k' := if k == i then n else k;
      assert r[j] == ls[j'] && r[k] == ls[k'];
    }
  }

  /** `ActionData`: one action's flag, id counter and listener list. */
  class Channel {
    var enabled: bool
    var nextId: nat
    var listeners: seq<Entry>

    /** Ids are distinct and below the counter, so the next id is fresh. */
    ghost predicate Valid()
      reads this
    {
      DistinctIds(listeners) && forall k :: 0 <= k < |listeners| ==> listeners[k].id < nextId
    }

    /** `ActionData{}`: enabled, ids from 0, no listeners. */
    constructor ()
      ensures Valid() && enabled && nextId == 0 && listeners == []
    {
      enabled, nextId, listeners := true, 0, [];
    }
  }

  /** `Actions<ActionType, ActionCount>::Listener`: an id and the list it lives in, or null once closed. */
  class Listener {
    var id: nat
    var target: Channel?

    /** `Listener() = default`: attached to nothing. */
    constructor ()
      ensures target == null
    {
      id, target := 0, null;
    }

    /** The move constructor: takes over the other's registration and detaches it. */
    constructor Moved(other: Listener)
      modifies other
      ensures id == old(other.id) && target == old(other.target)
      ensures other.target == null && other.id == old(other.id)
    {
      id, target := other.id, other.target;
      other.target := null;
    }

    /**
     * Close: remove the entry with this id from the list (swap-and-pop) and
     * detach; a detached listener does nothing.  The destructor is this call.
     */
    method Close()
      modifies this, target
      ensures target == null && id == old(id)
      ensures old(target) != null ==>
        old(target).listeners == Closed(old(target.listeners), id) &&
        old(target).enabled == old(target.enabled) && old(target).nextId == old(target.nextId)
    {
      if target == null {
        return;
      }
      var ls := target.listeners;
      var i := 0;
      while i < |ls|
        invariant 0 <= i <= |ls|
        invariant forall j :: 0 <= j < i ==> ls[j].id != id
      {
        if ls[i].id == id {
          assert FindId(ls, id) == Some(i);
          target.listeners := ls[i := ls[|ls| - 1]][..|ls| - 1];
          break;
        }
        i := i + 1;
      }
      target := null;
    }

    /**
     * Move assignment: nothing on self-assignment; otherwise close the own
     * registration first, then take over the other's and detach it.
     */
    method MoveAssign(other: Listener)
      modifies this, other, target
      ensures other == this ==>
        id == old(id) && target == old(target) && (old(target) != null ==> unchanged(old(target)))
      ensures other != this ==>
        id == old(other.id) && target == old(other.target) && other.target == null &&
        (old(target) != null ==> old(target).listeners == Closed(old(target.listeners), old(id)))
    {
      if other == this {
        return;
      }
      Close();
      id := other.id;
      target := other.target;
      other.target := null;
    }
  }

  /** `Actions<ActionType, ActionCount>`: one channel per action slot. */
  class Actions {
    const channels: seq<Channel>

    ghost predicate Valid()
      reads this, channels
    {
      (forall a, b :: 0 <= a < b < |channels| ==> channels[a] != channels[b]) &&
      forall a :: 0 <= a < |channels| ==> channels[a].Valid()
    }

    /** `Actions() = default`: every action enabled, with no listeners. */
    constructor (count: nat)
      ensures Valid() && |channels| == count && fresh(channels)
      ensures forall a :: 0 <= a < count ==> channels[a].enabled && channels[a].nextId == 0 && channels[a].listeners == []
    {
      var cs: seq<Channel> := [];
      while |cs| < count
        invariant |cs| <= count && fresh(cs)
        invariant forall a, b :: 0 <= a < b < |cs| ==> cs[a] != cs[b]
        invariant forall a :: 0 <= a < |cs| ==> cs[a].Valid() && cs[a].enabled && cs[a].nextId == 0 && cs[a].listeners == []
      {
        var c := new Channel();
        cs := cs + [c];
      }
      channels := cs;
    }

    function IsEnabled(action: nat): (r: bool)
      requires action < |channels|
      reads this, channels[action]
      ensures r <==> channels[action].enabled
    {
      channels[action].enabled
    }

    /** Enable and Disable touch only the named action's flag. */
    method Enable(action: nat)
      requires Valid() && action < |channels|
      modifies channels[action]
      ensures Valid() && channels[action].enabled
      ensures channels[action].nextId == old(channels[action].nextId) && channels[action].listeners == old(channels[action].listeners)
      ensures forall b :: 0 <= b < |channels| && b != action ==> channels[b].enabled == old(channels[b].enabled)
    {
      channels[action].enabled := true;
    }

    method Disable(action: nat)
      requires Valid() && action < |channels|
      modifies channels[action]
      ensures Valid() && !channels[action].enabled
      ensures channels[action].nextId == old(channels[action].nextId) && channels[action].listeners == old(channels[action].listeners)
      ensures forall b :: 0 <= b < |channels| && b != action ==> channels[b].enabled == old(channels[b].enabled)
    {
      channels[action].enabled := false;
    }

    /** Trigger: the action's callbacks in list order when it is enabled, none otherwise. */
    method Trigger(action: nat) returns (called: seq<Callback>)
      requires action < |channels|
      ensures called == if channels[action].enabled then Callbacks(channels[action].listeners) else []
    {
      var c := channels[action];
      if !c.enabled {
        return [];
      }
      called := [];
      var i := 0;
      while i < |c.listeners|
        invariant 0 <= i <= |c.listeners|
        invariant called == Callbacks(c.listeners[..i])
      {
        assert c.listeners[..i + 1][..i] == c.listeners[..i];
        called := called + [c.listeners[i].callback];
        i := i + 1;
      }
      assert c.listeners[..i] == c.listeners;
    }

    /**
     * Listen: the new listener takes the action's next id, which is fresh,
     * and its entry is appended to the action's list.
     */
    method Listen(action: nat, callback: Callback) returns (l: Listener)
      requires Valid() && action < |channels|
      modifies channels[action]
      ensures Valid() && fresh(l)
      ensures l.id == old(channels[action].nextId) && l.target == channels[action]
      ensures l.id !in Ids(old(channels[action].listeners))
      ensures channels[action].nextId == old(channels[action].nextId) + 1
      ensures channels[action].listeners == old(channels[action].listeners) + [Entry(l.id, callback)]
      ensures channels[action].enabled == old(channels[action].enabled)
    {
      var c := channels[action];
      l := new Listener();
      l.id := c.nextId;
      l.target := c;
      c.nextId := c.nextId + 1;
      c.listeners := c.listeners + [Entry(l.id, callback)];
    }
  }
}
