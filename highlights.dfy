// The highlight colour table (src/wgleng/rendering/Highlights.cpp): a list of
// at most 255 colours, indexed by the 8-bit highlight id that meshes, text and
// debug lines carry, names bound to some of the ids, and a "changed" flag the
// renderer polls to re-upload the table.  The class is static in the source;
// here it is one object.

module Highlights {
  import opened Common
  import opened Glm

  /** `m_maxHighlights`. */
  const MaxHighlights: nat := 256

  /** The table's state: `m_highlights`, `m_highlightIds` and `m_changed`. */
  datatype Table = Table(colors: seq<Vec3>, ids: map<string, nat>, changed: bool)

  /** An empty table with the flag at its initial value. */
  const Empty: Table := Table([], map[], false)

  /** At most 255 colours, and every name is bound to an existing slot. */
  predicate TableValid(t: Table)
  {
    |t.colors| < MaxHighlights && forall n :: n in t.ids ==> t.ids[n] < |t.colors|
  }

  /** GetHighlightId (lines 29-33): the id bound to the name, 0 for an unknown name. */
  function IdOf(t: Table, name: string): nat
  {
    if name in t.ids then t.ids[name] else 0
  }

  /**
   * AddHighlight(name, hl) (lines 3-17) on a table: a name bound to a non-zero id
   * gets its colour overwritten; otherwise, while there is room below 256 slots,
   * the colour is appended and the name bound to the new id; with no room
   * nothing changes and the id is 0.
   */
  function AddNamed(t: Table, name: string, hl: Vec3): (Table, nat)
  {
    var id := IdOf(t, name);
    if id != 0 then
      (t.(colors := if id < |t.colors| then t.colors[id := hl] else t.colors, changed := true), id)
    else if |t.colors| + 1 >= MaxHighlights then (t, 0)
    else (Table(t.colors + [hl], t.ids[name := |t.colors|], true), |t.colors|)
  }

  /** AddHighlight(hl) (lines 19-27): append without a name while there is room. */
  function AddUnnamed(t: Table, hl: Vec3): (Table, nat)
  {
    if |t.colors| + 1 >= MaxHighlights then (t, 0)
    else (t.(colors := t.colors + [hl], changed := true), |t.colors|)
  }

  /** The colours Init registers, in order (lines 67-75). */
  const InitNames: seq<string> := ["default", "black", "white", "red", "green", "blue", "yellow", "cyan", "magenta"]
  const InitColors: seq<Vec3> := [
    Vec3(0.0, 0.0, 0.0), Vec3(-1.0, -1.0, -1.0), Vec3(1.0, 1.0, 1.0),
    Vec3(1.0, 0.0, 0.0), Vec3(0.0, 1.0, 0.0), Vec3(0.0, 0.0, 1.0),
    Vec3(1.0, 1.0, 0.0), Vec3(0.0, 1.0, 1.0), Vec3(1.0, 0.0, 1.0)]

  /** The first n named adds of Init, one after the other. */
  function InitSteps(t: Table, n: nat): Table
    requires n <= |InitNames|
  {
    if n == 0 then t else AddNamed(InitSteps(t, n - 1), InitNames[n - 1], InitColors[n - 1]).0
  }

  /** Init (lines 65-76): set the flag, then the nine named adds. */
  function Initialized(t: Table): Table
  {
    InitSteps(t.(changed := true), |InitNames|)
  }

  /** Deinit (lines 77-81): the flag set, both containers emptied. */
  function Deinitialized(t: Table): Table
  {
    Table([], map[], true)
  }

  /** The first n names of Init, each bound to its position. */
  function InitIds(n: nat): map<string, nat>
    requires n <= |InitNames|
  {
    if n == 0 then map[] else InitIds(n - 1)[InitNames[n - 1] := n - 1]
  }

  /** The table Init builds from an empty one: slots 0 .. 8, each bound to its name. */
  function InitTable(): Table
  {
    Table(InitColors, InitIds(|InitNames|), true)
  }

  /** `glm::distance(a, b) < epsilon`, without the square root: the distance is never negative. */
  predicate Near(a: Vec3, b: Vec3, epsilon: real)
  {
    0.0 < epsilon && DistSq3(a, b) < epsilon * epsilon
  }

  // ----------------------------------------------------------------- lemmas

  /** Both adds keep the table valid: it never holds more than 255 colours. */
  lemma AddsKeepValid(t: Table, name: string, hl: Vec3)
    requires TableValid(t)
    ensures TableValid(AddNamed(t, name, hl).0) && TableValid(AddUnnamed(t, hl).0)
    ensures AddNamed(t, name, hl).1 < MaxHighlights && AddUnnamed(t, hl).1 < MaxHighlights
  {
  }

  /**
   * Re-adding a name bound to a non-zero id overwrites that slot only: the list
   * keeps its length, the names their ids, and the flag is set.
   */
  lemma ReAddOverwrites(t: Table, name: string, hl: Vec3)
    requires TableValid(t) && IdOf(t, name) != 0
    ensures var (r, id) := AddNamed(t, name, hl);
      id == IdOf(t, name) && |r.colors| == |t.colors| && r.colors[id] == hl &&
      (forall i :: 0 <= i < |t.colors| && i != id ==> r.colors[i] == t.colors[i]) &&
      r.ids == t.ids && r.changed
  {
  }

  /**
   * A name with id 0 (unknown, or bound to slot 0 like "default") is appended
   * as a new slot at the old size when there is room, and the name is bound to
   * it; with no room the table and the flag stay as they were and the id is 0.
   */
  lemma NewNameAppends(t: Table, name: string, hl: Vec3)
    requires IdOf(t, name) == 0
    ensures var (r, id) := AddNamed(t, name, hl);
      if |t.colors| + 1 < MaxHighlights then
        id == |t.colors| && r.colors == t.colors + [hl] && IdOf(r, name) == id && r.changed &&
        forall n :: n != name ==> IdOf(r, n) == IdOf(t, n)
      else id == 0 && r == t
  {
  }

  /** An unnamed add appends at the old size or, with no room, changes nothing. */
  lemma UnnamedAppends(t: Table, hl: Vec3)
    ensures var (r, id) := AddUnnamed(t, hl);
      if |t.colors| + 1 < MaxHighlights then id == |t.colors| && r.colors == t.colors + [hl] && r.ids == t.ids && r.changed
      else id == 0 && r == t
  {
  }

  /** The names Init registers are pairwise different. */
  lemma InitNamesDistinct(i: nat, k: nat)
    requires i < k < |InitNames|
    ensures InitNames[i] != InitNames[k]
  {
    assert InitNames[i][0] != InitNames[k][0] || |InitNames[i]| != |InitNames[k]|;
  }

  /** The first n names are bound exactly to the ids below n. */
  lemma {:induction false} InitIdsOf(n: nat, name: string)
    requires n <= |InitNames|
    ensures name in InitIds(n) <==> exists i :: 0 <= i < n && InitNames[i] == name
    ensures forall i :: 0 <= i < n ==> InitNames[i] in InitIds(n) && InitIds(n)[InitNames[i]] == i
  {
    if n > 0 {
      InitIdsOf(n - 1, name);
      forall i | 0 <= i < n - 1 ensures InitNames[i] != InitNames[n - 1] {
        InitNamesDistinct(i, n - 1);
      }
    }
  }

  /** One named add of Init from an empty start: the next colour lands in the next slot. */
  lemma InitStep(t: Table, k: nat)
    requires t.colors == [] && t.ids == map[] && t.changed
    requires k < |InitNames| && InitSteps(t, k) == Table(InitColors[..k], InitIds(k), true)
    ensures InitSteps(t, k + 1) == Table(InitColors[..k + 1], InitIds(k + 1), true)
  {
    InitIdsOf(k, InitNames[k]);
    if InitNames[k] in InitIds(k) {
      var i :| 0 <= i < k && InitNames[i] == InitNames[k];
      InitNamesDistinct(i, k);
    }
    assert InitColors[..k] + [InitColors[k]] == InitColors[..k + 1];
  }

  /** Init on an empty table yields the nine slots, default 0 to magenta 8. */
  lemma InitFromEmpty(t: Table)
    requires t.colors == [] && t.ids == map[]
    ensures Initialized(t) == InitTable()
  {
    var s := t.(changed := true);
    var k := 0;
    while k < |InitNames|
      invariant k <= |InitNames| && InitSteps(s, k) == Table(InitColors[..k], InitIds(k), true)
    {
      InitStep(s, k);
      k := k + 1;
    }
    assert InitColors[..|InitNames|] == InitColors;
  }

  /** Clear (lines 83-87) leaves exactly the state Init builds from empty, whatever came before. */
  lemma ClearResets(t: Table)
    ensures Initialized(Deinitialized(t)) == InitTable()
  {
    InitFromEmpty(Deinitialized(t));
  }

  // ------------------------------------------------------------------ class

  class Highlights {
    var colors: seq<Vec3>
    var ids: map<string, nat>
    var changed: bool

    function State(): Table
      reads this
    {
      Table(colors, ids, changed)
    }

    ghost predicate Valid()
      reads this
    {
      TableValid(State())
    }

    constructor ()
      ensures Valid() && State() == Empty
    {
      colors, ids, changed := [], map[], false;
    }

    /** AddHighlight(name, hl). */
    method AddHighlightNamed(name: string, hl: Vec3) returns (id: Byte)
      requires Valid()
      modifies this
      ensures Valid() && (State(), id as nat) == AddNamed(old(State()), name, hl)
    {
      AddsKeepValid(State(), name, hl);
      var cur := GetHighlightId(name);
      if cur != 0 {
        changed := true;
        colors := colors[cur := hl];
        return cur;
      }
      if |colors| + 1 >= MaxHighlights {
        return cur;
      }
      changed := true;
      id := |colors|;
      ids := ids[name := id as nat];
      colors := colors + [hl];
    }

    /** AddHighlight(hl). */
    method AddHighlightUnnamed(hl: Vec3) returns (id: Byte)
      requires Valid()
      modifies this
      ensures Valid() && (State(), id as nat) == AddUnnamed(old(State()), hl)
    {
      if |colors| + 1 >= MaxHighlights {
        return 0;
      }
      changed := true;
      id := |colors|;
      colors := colors + [hl];
    }

    /** GetHighlightId: the name's id, 0 when unknown; always a slot of a valid table. */
    function GetHighlightId(name: string): (id: Byte)
      requires Valid()
      reads this
      ensures id as nat == IdOf(State(), name)
      ensures name in ids ==> id < |colors|
    {
      if name in ids then ids[name] as Byte else 0
    }

    /**
     * GetHighlight(id) (lines 40-42): `m_highlights[id % 256]`; the index is not
     * checked, so the id must be a slot.
     */
    function GetHighlight(highlightId: Byte): (c: Vec3)
      requires highlightId < |colors|
      reads this
      ensures c == colors[highlightId]
    {
      colors[highlightId % MaxHighlights]
    }

    /** GetHighlight(name) (lines 35-38): the colour of the name's id. */
    function GetHighlightByName(name: string): (c: Vec3)
      requires Valid() && IdOf(State(), name) < |colors|
      reads this
      ensures c == colors[IdOf(State(), name)]
    {
      GetHighlight(GetHighlightId(name))
    }

    /**
     * GetClosestHighlightId (lines 48-57): the first slot within epsilon of the
     * colour; when there is none, false, and the id passed in comes back as it was.
     */
    method GetClosestHighlightId(color: Vec3, epsilon: real, highlightId: Byte) returns (found: bool, id: Byte)
      requires Valid()
      ensures found <==> exists i :: 0 <= i < |colors| && Near(colors[i], color, epsilon)
      ensures found ==> id < |colors| && Near(colors[id], color, epsilon) &&
                        forall j :: 0 <= j < id ==> !Near(colors[j], color, epsilon)
      ensures !found ==> id == highlightId
    {
      var i := 0;
      while i < |colors|
        invariant 0 <= i <= |colors|
        invariant forall j :: 0 <= j < i ==> !Near(colors[j], color, epsilon)
      {
        if Near(colors[i], color, epsilon) {
          return true, i;
        }
        i := i + 1;
      }
      return false, highlightId;
    }

    /** HasChanged (lines 59-63): the flag, cleared only when reset is asked for. */
    method HasChanged(reset: bool) returns (ret: bool)
      modifies this
      ensures ret == old(changed) && changed == (if reset then false else old(changed))
      ensures colors == old(colors) && ids == old(ids)
    {
      ret := changed;
      if reset {
        changed := false;
      }
    }

    /** Init: the nine named colours. */
    method Init()
      requires Valid()
      modifies this
      ensures Valid() && State() == Initialized(old(State()))
    {
      changed := true;
      ghost var t := State();
      var id: Byte;
      id := AddHighlightNamed(InitNames[0], InitColors[0]);
      assert State() == InitSteps(t, 1);
      id := AddHighlightNamed(InitNames[1], InitColors[1]);
      assert State() == InitSteps(t, 2);
      id := AddHighlightNamed(InitNames[2], InitColors[2]);
      assert State() == InitSteps(t, 3);
      id := AddHighlightNamed(InitNames[3], InitColors[3]);
      assert State() == InitSteps(t, 4);
      id := AddHighlightNamed(InitNames[4], InitColors[4]);
      assert State() == InitSteps(t, 5);
      id := AddHighlightNamed(InitNames[5], InitColors[5]);
      assert State() == InitSteps(t, 6);
      id := AddHighlightNamed(InitNames[6], InitColors[6]);
      assert State() == InitSteps(t, 7);
      id := AddHighlightNamed(InitNames[7], InitColors[7]);
      assert State() == InitSteps(t, 8);
      id := AddHighlightNamed(InitNames[8], InitColors[8]);
      assert State() == InitSteps(t, 9);
    }

    /** Deinit: empty both containers and set the flag. */
    method Deinit()
      modifies this
      ensures Valid() && State() == Deinitialized(old(State()))
    {
      changed := true;
      ids := map[];
      colors := [];
    }

    /** Clear: Deinit, then Init; the result is the initial table whatever came before. */
    method Clear()
      modifies this
      ensures Valid() && State() == InitTable()
    {
      changed := true;
      Deinit();
      Init();
      ClearResets(old(State()).(changed := true));
    }
  }
}
